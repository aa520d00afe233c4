/** The allocator as its callers see it: what an allocation comes back with is a block of the size and
    alignment it asked for. */
module JitMemoryCalls {
  import opened Threads
  import opened Align
  import opened JitMemory

  /** What add_jit_memory returns: nothing, an address it was only asked for, or a block. */
  datatype Answer = Null | Info | At(block: Block)

  datatype Return = Return(t: Tid, call: Choice, answer: Answer)

  /** calls: those under way; log: those that have come back. */
  datatype Watch = Watch(state: State, calls: map<Tid, Choice>, log: seq<Return>)

  ghost predicate Watchable(x: Watch, e: Event) {
    && Enabled(x.state, e.t, e.choice) && !SlipStep(x.state, e.t, e.choice)
    && (x.state.pcs[e.t].Idle? || e.t in x.calls)
  }

  ghost function Next(x: Watch, e: Event): Watch
    requires Watchable(x, e)
  {
    var s, r := x.state, Apply(x.state, e.t, e.choice);
    if s.pcs[e.t].Idle? then
      if e.choice.Stay? then x.(state := r)
      else if Query(e.choice.size, e.choice.align) then
        Watch(r, x.calls, x.log + [Return(e.t, e.choice, Info)])
      else if r.pcs[e.t].Idle? then
        Watch(r, x.calls, x.log + [Return(e.t, e.choice, Null)])
      else Watch(r, x.calls[e.t := e.choice], x.log)
    else if s.pcs[e.t].Returning? && r.pcs[e.t].Idle? then
      Watch(r, x.calls - {e.t}, x.log + [Return(e.t, x.calls[e.t], At(s.pcs[e.t].block))])
    else x.(state := r)
  }

  /** A call for memory; the others, of size 0 with alignment 0 or 1, ask where the memory is. */
  predicate Asks(call: Choice) {
    call.Allocate? && (call.size > 0 || call.align > 1)
  }

  predicate Fits(call: Choice, b: Block) {
    call.Allocate? && b.size == call.size && b.align == call.align
  }

  /** Nothing only once the allocator is exhausted; a block only of what was asked for, aligned, one of those
      reserved, and all of it below the mark, where everything is committed. */
  ghost predicate Promised(s: State, r: Return) {
    match r.answer
    case Null => Asks(r.call) && s.exhausted
    case Info => r.call.Allocate? && !Asks(r.call)
    case At(b) => Asks(r.call) && Fits(r.call, b) && b in s.blocks && b.pos + b.size <= s.ctr / LOW
  }

  /** A call under way has its block. */
  predicate Serves(call: Choice, pc: Pc) {
    !pc.Idle? && Asks(call) && Fits(call, pc.block)
  }

  lemma StepPlaces(s: State, t: Tid, choice: Choice)
    requires Enabled(s, t, choice)
    ensures var r := Apply(s, t, choice); t in r.pcs && r.pcs == s.pcs[t := r.pcs[t]]
  {
    hide Reserve, PowerOfTwo, Acknowledge, Range;
  }

  lemma FirstStep(s: State, t: Tid, choice: Choice)
    requires Enabled(s, t, choice) && s.pcs[t].Idle? && choice.Allocate? && !Query(choice.size, choice.align)
    ensures var r := Apply(s, t, choice);
            Asks(choice) && t in r.pcs && if r.pcs[t].Idle? then r.exhausted else Serves(choice, r.pcs[t])
  {
    hide Reserve, PowerOfTwo;
  }

  /** The block stays the same until it is returned. */
  lemma LaterStep(s: State, t: Tid, choice: Choice)
    requires Enabled(s, t, choice) && !s.pcs[t].Idle?
    ensures var r := Apply(s, t, choice);
            t in r.pcs && if s.pcs[t].Returning? then r.pcs[t].Idle?
                          else !r.pcs[t].Idle? && r.pcs[t].block == s.pcs[t].block
  {
    hide PowerOfTwo, Acknowledge, Range;
  }

  /** How many steps a call has left. */
  function Left(pc: Pc): nat {
    match pc
    case Idle => 0
    case Committing(_, _, _) => 3
    case Acknowledging(_, _) => 2
    case Returning(_) => 1
  }

  /** Every step of a call brings it nearer to its end, whatever the other threads do. */
  lemma OwnStepsEnd(s: State, t: Tid, choice: Choice)
    requires Enabled(s, t, choice) && !s.pcs[t].Idle?
    ensures var r := Apply(s, t, choice); t in r.pcs && Left(r.pcs[t]) < Left(s.pcs[t]) <= 3
  {
    hide PowerOfTwo, Acknowledge, Range;
  }

  lemma HistoryGrows(s: State, t: Tid, choice: Choice)
    requires Inv(s) && Enabled(s, t, choice) && !SlipStep(s, t, choice)
    ensures var r := Apply(s, t, choice);
            (s.exhausted ==> r.exhausted) && s.blocks <= r.blocks && s.ctr / LOW <= r.ctr / LOW
  {
    hide Inv, Reserve, PowerOfTwo, Slips, Range;
    if s.pcs[t].Idle? && choice.Allocate? && !Query(choice.size, choice.align) {
      Position(s);
      ReserveSpec(s.ctr, choice.size, choice.align);
    }
  }

  lemma Position(s: State)
    requires Inv(s)
    ensures s.ctr % LOW < 2 * LIMIT && s.ctr / LOW <= LIMIT
  {
  }

  // -- Every run ------------------------------------------------------------------------

  ghost predicate Right(x: Watch) {
    && Inv(x.state)
    && (forall t | t in x.state.pcs && !x.state.pcs[t].Idle? :: t in x.calls && Serves(x.calls[t], x.state.pcs[t]))
    && (forall i | 0 <= i < |x.log| :: Promised(x.state, x.log[i]))
  }

  lemma RightStep(x: Watch, e: Event)
    requires Right(x) && Enabled(x.state, e.t, e.choice) && !SlipStep(x.state, e.t, e.choice)
    ensures Watchable(x, e) && Right(Next(x, e))
  {
    hide Inv, Apply, SlipStep, PowerOfTwo;
    var s, t := x.state, e.t;
    InvStep(s, t, e.choice);
    HistoryGrows(s, t, e.choice);
    StepPlaces(s, t, e.choice);
    if s.pcs[t].Idle? {
      if e.choice.Allocate? && !Query(e.choice.size, e.choice.align) {
        FirstStep(s, t, e.choice);
      } else {
        NoStep(s, t, e.choice);
      }
    } else {
      LaterStep(s, t, e.choice);
      if s.pcs[t].Returning? {
        Below(s, t);
      }
    }
  }

  lemma NoStep(s: State, t: Tid, choice: Choice)
    requires Enabled(s, t, choice) && s.pcs[t].Idle? && (choice.Stay? || Query(choice.size, choice.align))
    ensures Apply(s, t, choice) == s
  {
  }

  lemma Below(s: State, t: Tid)
    requires Inv(s) && t in s.pcs && s.pcs[t].Returning?
    ensures s.pcs[t].block in s.blocks && s.pcs[t].block.pos + s.pcs[t].block.size <= s.ctr / LOW
  {
    assert ThreadOk(s, t);
  }

  ghost predicate Start(x: Watch) {
    Init(x.state) && x.calls == map[] && x.log == []
  }

  ghost predicate Watched(x: Watch, events: seq<Event>, y: Watch)
    decreases |events|
  {
    if events == [] then x == y
    else Watchable(x, events[0]) && Watched(Next(x, events[0]), events[1..], y)
  }

  lemma {:induction false} RightRun(x: Watch, events: seq<Event>, y: Watch)
    requires Right(x) && Watched(x, events, y)
    ensures Right(y)
    decreases |events|
  {
    hide Right, Next, Enabled, SlipStep;
    if events != [] {
      RightStep(x, events[0]);
      RightRun(Next(x, events[0]), events[1..], y);
    }
  }

  /** Every run in which no block slips can be watched. */
  lemma {:induction false} WatchRun(x: Watch, events: seq<Event>, r: State) returns (y: Watch)
    requires Right(x) && Run(x.state, events, r)
    ensures Watched(x, events, y) && y.state == r
    decreases |events|
  {
    hide Right, Apply, Enabled, SlipStep;
    if events == [] {
      y := x;
    } else {
      RightStep(x, events[0]);
      assert Next(x, events[0]).state == Apply(x.state, events[0].t, events[0].choice);
      y := WatchRun(Next(x, events[0]), events[1..], r);
    }
  }

  lemma AllCommitted(s: State, b: Block)
    requires Inv(s) && b in s.blocks && b.pos + b.size <= s.ctr / LOW
    ensures forall i | b.pos <= i < b.pos + b.size :: i in s.committed
    ensures b.align > 0 && b.pos % b.align == 0 && b.pos + b.size <= LIMIT
  {
    var k :| 0 <= k < |s.blocks| && s.blocks[k] == b;
  }

  /** Over every run in which no block slips: an allocation comes back with nothing only once one has failed,
      and otherwise with a block of its own size and alignment, aligned and committed. */
  lemma CallsComeBackRight(x: Watch, events: seq<Event>, y: Watch, i: nat)
    requires Start(x) && Watched(x, events, y) && i < |y.log|
    ensures Promised(y.state, y.log[i])
    ensures y.log[i].answer.At? ==>
              var b := y.log[i].answer.block;
              b.align > 0 && b.pos % b.align == 0 && forall k | b.pos <= k < b.pos + b.size :: k in y.state.committed
  {
    hide Watched;
    RightRun(x, events, y);
    if y.log[i].answer.At? {
      AllCommitted(y.state, y.log[i].answer.block);
    }
  }

  /** From every reachable state, with q and z as in ReserveExactly: an allocation that does not slip either
      reserves exactly the block at q, moves the position to z and leaves the rest, or marks the allocator
      exhausted and leaves the blocks and the mark. */
  lemma AllocateExactly(s: State, t: Tid, size: U64, align: U64, q: nat, z: nat)
    requires Reachable(s) && t in s.pcs && s.pcs[t] == Idle && PowerOfTwo(align) && align > 0
    requires (size > 0 || align > 1) && !Slips(s.ctr, size, align)
    requires LeastMultiple(s.ctr % LOW, align, q) && LeastMultiple(q + size, align, z)
    ensures var r := Apply(s, t, Allocate(size, align));
            && r.committed == s.committed && r.ctr / LOW == s.ctr / LOW
            && if z <= LIMIT then
                 && r.blocks == s.blocks + [Block(q, size, align)] && r.ctr % LOW == z && r.exhausted == s.exhausted
                 && t in r.pcs && (r.pcs[t].Returning? <==> z <= s.ctr / LOW) && (r.pcs[t].Returning? || r.pcs[t].Committing?)
                 && (r.pcs[t].Committing? ==> LeastMultiple(z, PAGE, r.pcs[t].newa) && r.pcs[t].olda == s.ctr / LOW)
               else r.blocks == s.blocks && r.exhausted && r.ctr % LOW >= LIMIT && t in r.pcs && r.pcs[t].Idle?
  {
    InvReachable(s);
    Position(s);
    hide Inv, Reserve, PowerOfTwo, Slips, Reachable;
    ReserveExactly(s.ctr, size, align, q, z);
  }

  /** Memory is committed only by a call that has reserved beyond the mark, and then from the mark it found to
      the end of its last page, no more. */
  lemma CommitsExactly(s: State, t: Tid, choice: Choice, i: nat)
    requires Enabled(s, t, choice)
    ensures i in Apply(s, t, choice).committed <==>
            i in s.committed || (s.pcs[t].Committing? && s.pcs[t].olda <= i < s.pcs[t].newa)
  {
    hide Reserve, PowerOfTwo, Acknowledge;
  }
}
