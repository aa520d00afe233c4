/** The lock-free bump allocator for generated code: one 64-bit counter holds the position
    (low 32 bits) and the mark up to which memory is acknowledged as committed (high 32 bits).

    Reserving, committing and acknowledging are three steps of a thread; others may run in
    between. The state also keeps the blocks in the order in which they were reserved. */
module JitMemory {
  import opened Threads
  import opened Align

  const LOW: nat := 0x1_0000_0000
  const LIMIT: nat := 0x4000_0000       // 1G subrange
  const PAGE: nat := 0x20_0000

  datatype Block = Block(pos: nat, size: nat, align: nat)

  /** The result of the first atomic step. */
  datatype Reserved = Failed(ctr: U64) | Reserved(ctr: U64, pos: nat, olda: nat, newa: nat)

  /** ctr |= 0x40000000 */
  function WithBit(ctr: U64): (r: U64)
    ensures r / LOW == ctr / LOW
    ensures r % LOW == if ctr % LOW / LIMIT % 2 == 1 then ctr % LOW else ctr % LOW + LIMIT
  {
    if ctr % LOW / LIMIT % 2 == 1 then ctr else ctr + LIMIT
  }

  /** ctr += end - low: the position becomes end, the mark stays. */
  function MoveTo(ctr: U64, end: nat): (r: U64)
    requires end <= LIMIT
    ensures r / LOW == ctr / LOW && r % LOW == end
  {
    ctr - ctr % LOW + end
  }

  /** The first atomic step of add_jit_memory. */
  function Reserve(ctr: U64, size: U64, align: U64): Reserved
    requires align > 0
  {
    var mark := ctr / LOW;
    var pos := AlignUp(ctr % LOW, align);
    var end := AlignUp(if pos + size < WRAP then pos + size else pos + size - WRAP, align);
    if end > LIMIT then
      Failed(WithBit(ctr))
    else
      Reserved(MoveTo(ctr, end), pos, mark, if end > mark then AlignUp(end, PAGE) else mark)
  }

  /** The second atomic step: acknowledge memory committed up to newa. */
  function Acknowledge(ctr: U64, newa: nat): (r: U64)
    requires newa < LOW
    ensures r % LOW == ctr % LOW && r / LOW == if ctr / LOW < newa then newa else ctr / LOW
  {
    if ctr / LOW < newa then ctr + (newa - ctr / LOW) * LOW else ctr
  }

  // -- Threads ------------------------------------------------------------------------

  datatype Pc =
    | Idle
    | Committing(block: Block, olda: nat, newa: nat)
    | Acknowledging(block: Block, newa: nat)
    | Returning(block: Block)

  datatype State = State(ctr: U64, committed: set<nat>, pcs: map<Tid, Pc>, blocks: seq<Block>, exhausted: bool)

  datatype Choice = Allocate(size: U64, align: U64) | Stay

  /** Size 0 with alignment 0 or 1 only asks for addresses. */
  predicate Query(size: U64, align: U64) {
    size == 0 && align <= 1
  }

  predicate Enabled(s: State, t: Tid, choice: Choice) {
    && t in s.pcs
    && (choice.Allocate? ==> Query(choice.size, choice.align) || (choice.align > 0 && PowerOfTwo(choice.align)))
  }

  /** The end of a block, the sum wrapping. */
  function WrappedEnd(pos: U64, size: U64, align: U64): U64
    requires align > 0
  {
    AlignUp(if pos + size < WRAP then pos + size else pos + size - WRAP, align)
  }

  /** The sums wrap, and come out below the limit. */
  predicate Slips(ctr: U64, size: U64, align: U64)
    requires align > 0
  {
    var pos := AlignUp(ctr % LOW, align);
    size > 0 && pos + size + align - 1 >= WRAP && WrappedEnd(pos, size, align) <= LIMIT
  }

  /** A step that reserves in this way. */
  predicate SlipStep(s: State, t: Tid, choice: Choice)
    requires Enabled(s, t, choice)
  {
    && s.pcs[t].Idle? && choice.Allocate? && !Query(choice.size, choice.align)
    && Slips(s.ctr, choice.size, choice.align)
  }

  function Range(lo: nat, hi: nat): (r: set<nat>)
    ensures forall x :: x in r <==> lo <= x < hi
    decreases hi
  {
    if lo >= hi then {} else Range(lo, hi - 1) + {hi - 1}
  }

  ghost function Apply(s: State, t: Tid, choice: Choice): State
    requires Enabled(s, t, choice)
  {
    match s.pcs[t]
    case Idle =>
      if choice.Stay? || Query(choice.size, choice.align) then s
      else
        (match Reserve(s.ctr, choice.size, choice.align)
         case Failed(ctr) => s.(ctr := ctr, exhausted := true)
         case Reserved(ctr, pos, olda, newa) =>
           var block := Block(pos, choice.size, choice.align);
           s.(ctr := ctr, blocks := s.blocks + [block],
              pcs := s.pcs[t := if olda != newa then Committing(block, olda, newa) else Returning(block)]))
    case Committing(block, olda, newa) =>
      s.(committed := s.committed + Range(olda, newa), pcs := s.pcs[t := Acknowledging(block, newa)])
    case Acknowledging(block, newa) =>
      s.(ctr := if newa < LOW then Acknowledge(s.ctr, newa) else s.ctr, pcs := s.pcs[t := Returning(block)])
    case Returning(block) =>
      s.(pcs := s.pcs[t := Idle])
  }

  // -- The invariant ------------------------------------------------------------------

  ghost predicate CommittedTo(s: State, x: nat) {
    forall i | 0 <= i < x :: i in s.committed
  }

  /** Blocks lie one after the other, aligned, below the limit. */
  ghost predicate BlocksOk(blocks: seq<Block>, top: nat) {
    && (forall i | 0 <= i < |blocks| ::
          var b := blocks[i];
          b.align > 0 && b.pos % b.align == 0 && b.pos + b.size <= top && b.pos + b.size <= LIMIT)
    && (forall i, j | 0 <= i < j < |blocks| :: blocks[i].pos + blocks[i].size <= blocks[j].pos)
  }

  ghost predicate ThreadOk(s: State, t: Tid)
    requires t in s.pcs
  {
    match s.pcs[t]
    case Idle => true
    case Committing(b, olda, newa) => b in s.blocks && b.pos + b.size <= newa <= LIMIT && CommittedTo(s, olda)
    case Acknowledging(b, newa) => b in s.blocks && b.pos + b.size <= newa <= LIMIT && CommittedTo(s, newa)
    case Returning(b) => b in s.blocks && b.pos + b.size <= s.ctr / LOW
  }

  ghost predicate Inv(s: State) {
    var position, mark := s.ctr % LOW, s.ctr / LOW;
    && position < 2 * LIMIT && mark <= LIMIT
    && (s.exhausted ==> position >= LIMIT)
    && BlocksOk(s.blocks, position)
    && CommittedTo(s, mark)
    && forall t | t in s.pcs :: ThreadOk(s, t)
  }

  // -- The steps ----------------------------------------------------------------------

  /** Reserving gives an aligned block at or above the position and moves the position past it,
      or fails; and it leaves the mark. */
  lemma ReserveSpec(ctr: U64, size: U64, align: U64)
    requires ctr % LOW < 2 * LIMIT && ctr / LOW <= LIMIT && PowerOfTwo(align) && align > 0 && !Slips(ctr, size, align)
    ensures match Reserve(ctr, size, align)
            case Failed(c) =>
              && LIMIT <= c % LOW < 2 * LIMIT && ctr % LOW <= c % LOW && c / LOW == ctr / LOW
            case Reserved(c, pos, olda, newa) =>
              && ctr % LOW <= pos && pos % align == 0 && pos + size <= c % LOW <= LIMIT
              && c / LOW == ctr / LOW == olda && c % LOW <= newa <= LIMIT && olda <= newa
    ensures ctr % LOW + size > LIMIT ==> Reserve(ctr, size, align).Failed?
  {
    hide AlignUp, PowerOfTwo;
    var pos := AlignUp(ctr % LOW, align);
    HalfRange(align);
    AlignUpSpec(ctr % LOW, align);
    RoomAbove(pos, align);
    if pos + size + align - 1 < WRAP {
      AlignUpSpec(pos + size, align);
    }
    var end := WrappedEnd(pos, size, align);
    if end <= LIMIT {
      PageEnd(end);
    }
  }

  lemma PageEnd(end: nat)
    requires end <= LIMIT
    ensures end <= AlignUp(end, PAGE) <= LIMIT
  {
    AlignUpSpec(end, PAGE);
    AlignUpMonotone(end, LIMIT, PAGE);
    AlignUpFixed(LIMIT, PAGE);
  }

  /** For every power of two: a reserve fails or moves the position past its block exactly unless it
      slips. */
  lemma ReserveSoundExactly(ctr: U64, size: U64, align: U64)
    requires ctr % LOW < 2 * LIMIT && PowerOfTwo(align) && align > 0
    ensures var r := Reserve(ctr, size, align);
            r.Failed? || AlignUp(ctr % LOW, align) + size <= r.ctr % LOW <==> !Slips(ctr, size, align)
  {
    hide AlignUp, PowerOfTwo;
    var pos := AlignUp(ctr % LOW, align);
    HalfRange(align);
    AlignUpSpec(ctr % LOW, align);
    RoomAbove(pos, align);
    if pos + size + align - 1 < WRAP {
      AlignUpSpec(pos + size, align);
    } else if pos + size < WRAP {
      AlignUpWrapped(pos + size, align);
    } else {
      AlignUpMonotone(pos + size - WRAP, pos, align);
      AlignUpFixed(pos, align);
    }
  }

  /** q is the least multiple of a from x on. */
  ghost predicate LeastMultiple(x: nat, a: nat, q: nat)
    requires a > 0
  {
    x <= q && q % a == 0 && forall m: nat | x <= m && m % a == 0 :: q <= m
  }

  lemma LeastIsAlignUp(x: U64, a: U64, q: nat)
    requires a > 0 && x + a - 1 < WRAP && LeastMultiple(x, a, q)
    ensures AlignUp(x, a) == q
  {
    hide AlignUp;
    AlignUpSpec(x, a);
    Gap(a, q, AlignUp(x, a));
  }

  lemma AlignUpIsLeast(x: U64, a: U64)
    requires a > 0 && x + a - 1 < WRAP
    ensures LeastMultiple(x, a, AlignUp(x, a))
  {
    hide AlignUp;
    AlignUpSpec(x, a);
    forall m: nat | x <= m && m % a == 0
      ensures AlignUp(x, a) <= m
    {
      if m < AlignUp(x, a) {
        Gap(a, m, AlignUp(x, a));
      }
    }
  }

  /** For every size and every power of two, with q the least multiple from the position on and z the least
      from the end of a block at q on: something is reserved exactly if z is within the limit, or it slips;
      unless it slips the block is at q, the position becomes z, and memory is to be committed up to the
      mark, or to the end of z's page if that is beyond it. */
  lemma ReserveExactly(ctr: U64, size: U64, align: U64, q: nat, z: nat)
    requires ctr % LOW < 2 * LIMIT && ctr / LOW <= LIMIT && PowerOfTwo(align) && align > 0
    requires LeastMultiple(ctr % LOW, align, q) && LeastMultiple(q + size, align, z)
    ensures var r := Reserve(ctr, size, align);
            && (r.Reserved? <==> z <= LIMIT || Slips(ctr, size, align))
            && (r.Reserved? && !Slips(ctr, size, align) ==>
                  && r.pos == q && r.ctr % LOW == z && r.ctr / LOW == r.olda == ctr / LOW
                  && if z <= r.olda then r.newa == r.olda else LeastMultiple(z, PAGE, r.newa))
            && (r.Failed? ==> r.ctr % LOW >= LIMIT && r.ctr / LOW == ctr / LOW)
  {
    hide AlignUp, PowerOfTwo, LeastMultiple;
    HalfRange(align);
    LeastIsAlignUp(ctr % LOW, align, q);
    LeastBounds(ctr % LOW, align, q);
    LeastBounds(q + size, align, z);
    RoomAbove(q, align);
    if q + size + align - 1 < WRAP {
      LeastIsAlignUp(q + size, align, z);
      if z <= LIMIT {
        AlignUpIsLeast(z, PAGE);
      }
    }
  }

  lemma LeastBounds(x: nat, a: nat, q: nat)
    requires a > 0 && LeastMultiple(x, a, q)
    ensures x <= q && q % a == 0
  {
  }

  lemma HalfRange(align: U64)
    requires PowerOfTwo(align) && align > 0
    ensures 2 * align <= WRAP && WRAP % align == 0
  {
    Powers();
    PowersDivide(align, WRAP);
    if 2 * align > WRAP {
      PowersApart(WRAP, align);
    }
  }

  /** A multiple below the range leaves room for one more. */
  lemma RoomAbove(pos: U64, align: U64)
    requires align > 0 && pos % align == 0 && WRAP % align == 0
    ensures pos + align <= WRAP
  {
    if pos + align > WRAP {
      Gap(align, pos, WRAP);
    }
  }

  lemma InvReserve(s: State, t: Tid, choice: Choice)
    requires Inv(s) && Enabled(s, t, choice) && s.pcs[t].Idle? && choice.Allocate?
    requires !Query(choice.size, choice.align) && !SlipStep(s, t, choice)
    ensures Inv(Apply(s, t, choice))
  {
    hide Reserve, PowerOfTwo, Slips;
    ReserveSpec(s.ctr, choice.size, choice.align);
    var m := Apply(s, t, choice);
    forall u | u in m.pcs ensures ThreadOk(m, u) {
      if u != t { assert ThreadOk(s, u); }
    }
  }

  lemma InvCommit(s: State, t: Tid, choice: Choice)
    requires Inv(s) && Enabled(s, t, choice) && s.pcs[t].Committing?
    ensures Inv(Apply(s, t, choice))
  {
    hide BlocksOk, PowerOfTwo;
    assert ThreadOk(s, t);
    var m := Apply(s, t, choice);
    forall u | u in m.pcs ensures ThreadOk(m, u) {
      if u != t { assert ThreadOk(s, u); }
    }
  }

  lemma InvAcknowledge(s: State, t: Tid, choice: Choice)
    requires Inv(s) && Enabled(s, t, choice) && s.pcs[t].Acknowledging?
    ensures Inv(Apply(s, t, choice))
  {
    hide BlocksOk, PowerOfTwo, Acknowledge;
    assert ThreadOk(s, t);
    var m := Apply(s, t, choice);
    forall u | u in m.pcs ensures ThreadOk(m, u) {
      if u != t { assert ThreadOk(s, u); }
    }
  }

  /** A block that slips is not below the position. */
  lemma SlipBreaks(s: State, t: Tid, choice: Choice)
    requires Inv(s) && Enabled(s, t, choice) && SlipStep(s, t, choice)
    ensures !Inv(Apply(s, t, choice))
  {
    hide PowerOfTwo, Slips, AlignUp;
    ReserveSoundExactly(s.ctr, choice.size, choice.align);
    var r := Reserve(s.ctr, choice.size, choice.align);
    var m := Apply(s, t, choice);
    hide Reserve;
    var b := m.blocks[|s.blocks|];
    assert b.pos + b.size > m.ctr % LOW;
  }

  /** Every step of every thread keeps the invariant exactly unless it reserves a block that slips. */
  lemma InvStep(s: State, t: Tid, choice: Choice)
    requires Inv(s) && Enabled(s, t, choice)
    ensures Inv(Apply(s, t, choice)) <==> !SlipStep(s, t, choice)
  {
    hide Inv, Reserve, PowerOfTwo, Slips;
    if SlipStep(s, t, choice) {
      SlipBreaks(s, t, choice);
    } else if s.pcs[t].Idle? && choice.Allocate? && !Query(choice.size, choice.align) {
      InvReserve(s, t, choice);
    } else if s.pcs[t].Committing? {
      InvCommit(s, t, choice);
    } else if s.pcs[t].Acknowledging? {
      InvAcknowledge(s, t, choice);
    } else {
      InvRest(s, t, choice);
    }
  }

  lemma InvRest(s: State, t: Tid, choice: Choice)
    requires Inv(s) && Enabled(s, t, choice)
    requires s.pcs[t].Returning? || (s.pcs[t].Idle? && (choice.Stay? || Query(choice.size, choice.align)))
    ensures Inv(Apply(s, t, choice))
  {
    hide BlocksOk, PowerOfTwo, Reserve;
    var m := Apply(s, t, choice);
    forall u | u in m.pcs ensures ThreadOk(m, u) {
      assert ThreadOk(s, u);
    }
  }

  // -- Every run ----------------------------------------------------------------------

  datatype Event = Event(t: Tid, choice: Choice)

  ghost predicate Init(s: State) {
    && s.ctr == 0 && s.blocks == [] && !s.exhausted
    && forall t | t in s.pcs :: s.pcs[t] == Idle
  }

  /** Any run in which no block slips. */
  ghost predicate Run(s: State, events: seq<Event>, r: State)
    decreases |events|
  {
    if events == [] then s == r
    else
      var e := events[0];
      && Enabled(s, e.t, e.choice) && !SlipStep(s, e.t, e.choice)
      && Run(Apply(s, e.t, e.choice), events[1..], r)
  }

  ghost predicate Reachable(r: State) {
    exists s, events :: Init(s) && Run(s, events, r)
  }

  lemma {:induction false} InvRun(s: State, events: seq<Event>, r: State)
    requires Inv(s) && Run(s, events, r)
    ensures Inv(r)
    decreases |events|
  {
    hide Inv, Apply, SlipStep, Enabled;
    if events != [] {
      InvStep(s, events[0].t, events[0].choice);
      InvRun(Apply(s, events[0].t, events[0].choice), events[1..], r);
    }
  }

  lemma InvReachable(r: State)
    requires Reachable(r)
    ensures Inv(r)
  {
    var s, events :| Init(s) && Run(s, events, r);
    InvRun(s, events, r);
  }

  // -- What the allocator promises ----------------------------------------------------

  /** Blocks are aligned, lie below 1G and do not overlap, whoever reserved them. */
  lemma BlocksDisjoint(s: State, i: nat, j: nat)
    requires Reachable(s) && i < j < |s.blocks|
    ensures var a, b := s.blocks[i], s.blocks[j];
            && a.align > 0 && a.pos % a.align == 0 && b.align > 0 && b.pos % b.align == 0
            && a.pos + a.size <= b.pos && b.pos + b.size <= LIMIT
  {
    InvReachable(s);
  }

  /** A thread returns only blocks below the acknowledged mark, and everything below it is committed. */
  lemma ReturnedIsCommitted(s: State, t: Tid)
    requires Reachable(s) && t in s.pcs
    ensures forall x | 0 <= x < s.ctr / LOW :: x in s.committed
    ensures s.pcs[t].Returning? ==>
              var b := s.pcs[t].block;
              && b in s.blocks && b.pos + b.size <= s.ctr / LOW
              && forall x | b.pos <= x < b.pos + b.size :: x in s.committed
  {
    InvReachable(s);
    assert ThreadOk(s, t);
  }

  /** After one failure a later allocation of something fails exactly unless it slips. One of size 0
      fails unless it is put at the very end, where the last ensure() stops it. */
  lemma ExhaustedForGood(s: State, size: U64, align: U64)
    requires Reachable(s) && s.exhausted && PowerOfTwo(align) && align > 0
    ensures var r := Reserve(s.ctr, size, align);
            && (size > 0 ==> (r.Failed? <==> !Slips(s.ctr, size, align)))
            && (size == 0 ==> r.Failed? || (s.ctr % LOW == LIMIT == r.pos && !InRange(r.pos)))
  {
    hide AlignUp, PowerOfTwo;
    InvReachable(s);
    hide Inv, Reachable;
    HalfRange(align);
    AlignUpSpec(s.ctr % LOW, align);
    ReserveSoundExactly(s.ctr, size, align);
  }

  /** One that does: at the limit, all of the 64-bit range but the limit. */
  lemma SlipExample(ctr: U64, size: U64, align: U64)
    requires ctr == LIMIT && size == WRAP - LIMIT && align == PAGE
    ensures PowerOfTwo(align) && Slips(ctr, size, align)
    ensures var r := Reserve(ctr, size, align); r.Reserved? && r.pos == LIMIT && r.ctr % LOW == 0
  {
    hide AlignUp;
    Powers();
    hide PowerOfTwo;
    AlignUpFixed(ctr, align);
    ZeroAligned(align);
  }

  lemma ZeroAligned(align: U64)
    requires 0 < align < WRAP
    ensures AlignUp(0, align) == 0
  {
    hide AlignUp;
    AlignUpFixed(0, align);
  }

  /** The last ensure(): the address is inside the subrange. */
  predicate InRange(pos: nat) {
    pos < LIMIT
  }

  /** It holds of every block that is returned, but for empty ones at the very end. */
  lemma ReturnedInRange(s: State, t: Tid)
    requires Reachable(s) && t in s.pcs && s.pcs[t].Returning?
    ensures InRange(s.pcs[t].block.pos) <==> !(s.pcs[t].block.size == 0 && s.pcs[t].block.pos == LIMIT)
  {
    InvReachable(s);
    assert ThreadOk(s, t);
    var i :| 0 <= i < |s.blocks| && s.blocks[i] == s.pcs[t].block;
  }
}
