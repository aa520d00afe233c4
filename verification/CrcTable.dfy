/** The table-driven CRC equals the bit-by-bit one, because the register is linear over
    GF(2): a byte's worth of steps splits into the byte that leaves and the rest, which only
    shifts. */
module CrcTable {
  import opened Bits
  import opened Crc

  /** The same in the k lowest bits. */
  ghost predicate Agree(a: Word, b: Word, k: nat) {
    |a| == |b| && forall i | 0 <= i < k && i < |a| :: a[i] == b[i]
  }

  // -- Linearity ----------------------------------------------------------------------

  /** Bit i after one step: its neighbour, and the polynomial if a bit is carried out. */
  lemma StepAt(e: Engine, r: Word, i: nat)
    requires Fits(e, |r|) && i < |r|
    ensures Step(e, r)[i] ==
            match e
            case Right(poly) => (i + 1 < |r| && r[i + 1]) != (r[0] && poly[i])
            case Left(top, poly) => (i > 0 && r[i - 1]) != (r[top] && poly[i])
  {
  }

  lemma StepXor(e: Engine, a: Word, b: Word)
    requires |a| == |b| && Fits(e, |a|)
    ensures Step(e, Xor(a, b)) == Xor(Step(e, a), Step(e, b))
  {
    hide Step;
    forall i | 0 <= i < |a| ensures Step(e, Xor(a, b))[i] == Xor(Step(e, a), Step(e, b))[i] {
      StepAt(e, a, i);
      StepAt(e, b, i);
      StepAt(e, Xor(a, b), i);
    }
  }

  lemma {:induction false} StepsXor(e: Engine, a: Word, b: Word, k: nat)
    requires |a| == |b| && Fits(e, |a|)
    ensures Steps(e, Xor(a, b), k) == Xor(Steps(e, a, k), Steps(e, b, k))
  {
    if k > 0 {
      StepsXor(e, a, b, k - 1);
      StepXor(e, Steps(e, a, k - 1), Steps(e, b, k - 1));
    }
  }

  // -- A register with nothing to carry out only shifts -------------------------------

  lemma {:induction false} QuietLeft(e: Engine, r: Word, k: nat)
    requires Fits(e, |r|) && e.Left? && k <= e.top + 1
    requires forall i | e.top - k < i <= e.top :: !r[i]
    ensures Steps(e, r, k) == Shl(r, k)
  {
    if k > 0 {
      QuietLeft(e, r, k - 1);
    }
  }

  lemma {:induction false} QuietRight(e: Engine, r: Word, k: nat)
    requires Fits(e, |r|) && e.Right? && k <= |r|
    requires forall i | 0 <= i < k :: !r[i]
    ensures Steps(e, r, k) == Shr(r, k)
  {
    if k > 0 {
      QuietRight(e, r, k - 1);
    }
  }

  // -- Bits above the register never come back down -----------------------------------

  lemma {:induction false} StepsAgree(e: Engine, a: Word, b: Word, k: nat)
    requires e.Left? && |a| == |b| && Fits(e, |a|) && Agree(a, b, e.top + 1)
    ensures Agree(Steps(e, a, k), Steps(e, b, k), e.top + 1)
  {
    if k > 0 {
      StepsAgree(e, a, b, k - 1);
    }
  }

  /** The byte of x that the next eight steps carry out. */
  function Outgoing(e: Engine, x: Word): (c: Word)
    requires Fits(e, |x|)
    ensures |c| == 8
  {
    if e.Right? then x[..8] else x[e.top - 7..e.top + 1]
  }

  /** Eight steps of x: the steps of its outgoing byte alone, and the rest shifted. */
  lemma Split(e: Engine, x: Word)
    requires Fits(e, |x|)
    ensures var n := |x|;
            var c := Entry(e, Outgoing(e, x), n);
            Steps(e, x, 8) == Xor(Steps(e, c, 8), if e.Right? then Shr(x, 8) else Shl(Xor(x, c), 8))
  {
    hide Steps, Shl, Shr;
    var c := Entry(e, Outgoing(e, x), |x|);
    var rest := Xor(x, c);
    assert x == Xor(c, rest);
    StepsXor(e, c, rest, 8);
    if e.Right? {
      RestRight(e, x);
    } else {
      RestLeft(e, x);
    }
  }

  lemma RestRight(e: Engine, x: Word)
    requires Fits(e, |x|) && e.Right?
    ensures Steps(e, Xor(x, Entry(e, Outgoing(e, x), |x|)), 8) == Shr(x, 8)
  {
    hide Steps;
    var rest := Xor(x, Entry(e, Outgoing(e, x), |x|));
    QuietRight(e, rest, 8);
    assert Shr(rest, 8) == Shr(x, 8);
  }

  lemma RestLeft(e: Engine, x: Word)
    requires Fits(e, |x|) && e.Left?
    ensures var rest := Xor(x, Entry(e, Outgoing(e, x), |x|)); Steps(e, rest, 8) == Shl(rest, 8)
  {
    hide Steps;
    QuietLeft(e, Xor(x, Entry(e, Outgoing(e, x), |x|)), 8);
  }

  // -- Table entries ------------------------------------------------------------------

  /** The polynomial has no bits below the register, so neither has what eight steps leave. */
  lemma {:induction false} NarrowBits(e: Engine, r: Word, s: nat, k: nat)
    requires e.Left? && Fits(e, |r|) && s <= |r|
    requires forall i | 0 <= i < s :: !e.poly[i]
    ensures forall i | 0 <= i < s :: Steps(e, r, k)[i] == (i >= k && r[i - k])
  {
    if k > 0 {
      NarrowBits(e, r, s, k - 1);
    }
  }

  /** The mirrored polynomial has no bits above the width: once a byte is shifted out, only
      bits below the width are left. */
  lemma {:induction false} RightBits(e: Engine, r: Word, w: nat, k: nat)
    requires e.Right? && Fits(e, |r|) && k <= 8
    requires forall i | w <= i < |r| :: !e.poly[i]
    requires forall i | 8 <= i < |r| :: !r[i]
    ensures forall i | w <= i < |r| && 8 - k <= i :: !Steps(e, r, k)[i]
  {
    if k > 0 {
      RightBits(e, r, w, k - 1);
    }
  }

  /** The entry for byte c is the eight steps of c, in the bits that count. */
  lemma EntrySteps(p: Parameters, c: Byte)
    requires p.Valid()
    ensures var e := EngineOf(p);
            var y := Steps(e, Entry(e, ByteBits(c), p.digits), 8);
            if e.Right? then TableEntry(p, c) == y else Agree(TableEntry(p, c), y, e.top + 1)
  {
    hide Steps;
    var e := EngineOf(p);
    var zero := Zero(p.digits);
    var x := Entry(e, ByteBits(c), p.digits);
    assert Enter(p, zero) == zero;
    assert Xor(zero, x) == x;
    assert Fold(e, [c], zero) == Steps(e, x, 8) by {
      assert [c][..0] == [];
    }
    if e.Right? {
      RightBits(e, x, p.width, 8);
    } else if p.width < 8 {
      NarrowBits(e, x, 8 - p.width, 8);
    }
  }

  // -- One byte -----------------------------------------------------------------------

  /** The table index of the code. */
  function Index(p: Parameters, r: Word, b: Byte): Byte
    requires p.Valid() && |r| == p.digits
  {
    var byte := Extend(ByteBits(b), p.digits);
    LowByte(Xor(if !p.reflectInput && p.width >= 8 then Shr(r, p.width - 8) else r, byte))
  }

  /** The register with byte b absorbed. */
  function Absorbed(p: Parameters, r: Word, b: Byte): (x: Word)
    requires p.Valid() && |r| == p.digits
    ensures |x| == |r|
  {
    Xor(r, Entry(EngineOf(p), ByteBits(b), p.digits))
  }

  /** The outgoing byte is the byte of the register that meets the absorbed one. */
  lemma OutgoingIs(e: Engine, r: Word, b: Word)
    requires Fits(e, |r|) && |b| == 8
    ensures var base := if e.Right? then 0 else e.top - 7;
            Outgoing(e, Xor(r, Entry(e, b, |r|))) == Xor(Shr(r, base), Extend(b, |r|))[..8]
  {
  }

  lemma IndexIsOutgoing(p: Parameters, r: Word, b: Byte)
    requires p.Valid() && |r| == p.digits
    ensures ByteBits(Index(p, r, b)) == Outgoing(EngineOf(p), Absorbed(p, r, b))
  {
    hide ByteBits, Outgoing, Entry, Xor, Extend;
    OutgoingIs(EngineOf(p), r, ByteBits(b));
    assert Shr(r, 0) == r;
  }

  lemma TableStepMatches(p: Parameters, table: seq<Word>, r: Word, b: Byte)
    requires p.Valid() && IsTable(p, table) && |r| == p.digits
    ensures var e := EngineOf(p);
            var t, y := TableStep(p, table, r, b), ByteStep(e, r, ByteBits(b));
            if e.Right? then t == y else Agree(t, y, e.top + 1)
  {
    hide Steps, TableEntry, Step, ByteBits;
    var e := EngineOf(p);
    var x := Absorbed(p, r, b);
    Split(e, x);
    var c := Index(p, r, b);
    IndexIsOutgoing(p, r, b);
    EntrySteps(p, c);
    if e.Right? {
      assert Shr(x, 8) == Shr(r, 8);
      assert TableStep(p, table, r, b) == Xor(Shr(r, 8), table[c]);
      XorCommutes(Steps(e, Entry(e, ByteBits(c), p.digits), 8), Shr(x, 8));
    } else {
      LeftShifted(p, r, b, c);
    }
  }

  lemma XorCommutes(a: Word, b: Word)
    requires |a| == |b|
    ensures Xor(a, b) == Xor(b, a)
  {
  }

  /** Left of the outgoing byte nothing counts, right of it the absorbed byte changes nothing. */
  lemma LeftShifted(p: Parameters, r: Word, b: Byte, c: Byte)
    requires p.Valid() && |r| == p.digits && !p.reflectInput
    ensures var e := EngineOf(p);
            var rest := Xor(Absorbed(p, r, b), Entry(e, ByteBits(c), p.digits));
            Agree(Shl(rest, 8), Shl(r, 8), e.top + 1)
  {
    hide ByteBits;
  }

  // -- Whole messages -----------------------------------------------------------------

  lemma {:induction false} TableFoldMatches(p: Parameters, table: seq<Word>, data: seq<Byte>, r: Word)
    requires p.Valid() && IsTable(p, table) && |r| == p.digits
    ensures var e := EngineOf(p);
            var t, y := TableFold(p, table, data, r), Fold(e, data, r);
            if e.Right? then t == y else Agree(t, y, e.top + 1)
  {
    if data != [] {
      hide IsTable, TableStep, ByteStep;
      var front, b := data[..|data| - 1], data[|data| - 1];
      TableFoldMatches(p, table, front, r);
      var e := EngineOf(p);
      TableStepMatches(p, table, TableFold(p, table, front, r), b);
      if e.Left? {
        ByteStepAgrees(e, TableFold(p, table, front, r), Fold(e, front, r), ByteBits(b));
      }
    }
  }

  lemma ByteStepAgrees(e: Engine, x: Word, y: Word, b: Word)
    requires e.Left? && |x| == |y| && Fits(e, |x|) && |b| == 8 && Agree(x, y, e.top + 1)
    ensures Agree(ByteStep(e, x, b), ByteStep(e, y, b), e.top + 1)
  {
    hide Steps;
    StepsAgree(e, Xor(x, Entry(e, b, |x|)), Xor(y, Entry(e, b, |y|)), 8);
  }

  lemma FinalizeAgrees(p: Parameters, x: Word, y: Word)
    requires p.Valid() && |x| == p.digits && Agree(x, y, p.width)
    ensures Finalize(p, x) == Finalize(p, y)
  {
  }

  /** Table-driven and bit-by-bit remainders finalize to the same CRC: for every message,
      every starting remainder and every parameter set, whatever lies above the width. */
  lemma TableRemainderMatches(p: Parameters, table: seq<Word>, data: seq<Byte>, r: Word)
    requires p.Valid() && IsTable(p, table) && |r| == p.digits
    ensures Finalize(p, TableRemainder(p, table, data, r)) == Finalize(p, Remainder(p, data, r))
  {
    hide IsTable, Finalize;
    TableFoldMatches(p, table, data, Enter(p, r));
    FinalizeAgrees(p, TableRemainder(p, table, data, r), Remainder(p, data, r));
  }

  /** All four overloads of Calculate: the table forms equal the bit forms. */
  lemma TableMatchesBits(p: Parameters, table: seq<Word>, data: seq<Byte>, crc: Word)
    requires p.Valid() && IsTable(p, table) && |crc| == p.digits
    ensures CalculateByTable(p, table, data) == Calculate(p, data)
    ensures ResumeByTable(p, table, data, crc) == Resume(p, data, crc)
  {
    TableRemainderMatches(p, table, data, p.initialValue);
    TableRemainderMatches(p, table, data, UndoFinalize(p, crc));
  }
}
