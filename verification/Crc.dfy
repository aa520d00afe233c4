/** The CRC template library: bit by bit, by lookup table, and resumed.

    Everything is for every integer type (at least 8 digits), every width it can hold and
    every parameter set. */
module Crc {
  import opened Bits

  datatype Parameters = Parameters(
    digits: nat,          // numeric_limits<CRCType>::digits
    width: nat,           // CRCWidth
    polynomial: Word,
    initialValue: Word,
    finalXor: Word,
    reflectInput: bool,
    reflectOutput: bool)
  {
    /** What the template demands: the type can hold the width. */
    predicate Valid() {
      && 8 <= digits && 1 <= width <= digits
      && |polynomial| == |initialValue| == |finalXor| == digits
    }

    predicate Narrow() { !reflectInput && width < 8 }
  }

  // -- Reflect, Finalize, UndoFinalize ------------------------------------------------

  /** Reflect: shifts the bits of value into the result one by one. */
  method Reflect(value: Word, numBits: nat) returns (r: Word)
    requires numBits <= |value|
    ensures r == Mirror(value, numBits)
  {
    var v := value;
    r := Zero(|value|);
    for i := 0 to numBits
      invariant v == Shr(value, i) && r == Mirror(value, i)
    {
      MirrorStep(value, i);
      r := Shl(r, 1)[0 := v[0]];
      v := Shr(v, 1);
    }
  }

  lemma MirrorStep(value: Word, i: nat)
    requires i < |value|
    ensures Shl(Mirror(value, i), 1)[0 := Shr(value, i)[0]] == Mirror(value, i + 1)
    ensures Shr(Shr(value, i), 1) == Shr(value, i + 1)
  {
  }

  function Finalize(p: Parameters, remainder: Word): (r: Word)
    requires p.Valid() && |remainder| == p.digits
    ensures |r| == p.digits
  {
    var x := if p.reflectInput != p.reflectOutput then Mirror(remainder, p.width) else remainder;
    Low(Xor(x, p.finalXor), p.width)
  }

  function UndoFinalize(p: Parameters, crc: Word): (r: Word)
    requires p.Valid() && |crc| == p.digits
    ensures |r| == p.digits
  {
    var x := Xor(Low(crc, p.width), p.finalXor);
    if p.reflectInput != p.reflectOutput then Mirror(x, p.width) else x
  }

  // -- The bit-by-bit remainder -------------------------------------------------------

  /** The register that the inner loop shifts: to the right with the reflected polynomial, or
      to the left, looking at bit top. A width below 8 works on the byte's top bits. */
  datatype Engine = Right(poly: Word) | Left(top: nat, poly: Word)

  predicate Fits(e: Engine, n: nat) {
    8 <= n && |e.poly| == n && (e.Left? ==> 7 <= e.top < n)
  }

  function EngineOf(p: Parameters): (e: Engine)
    requires p.Valid()
    ensures Fits(e, p.digits)
  {
    if p.reflectInput then Right(Mirror(p.polynomial, p.width))
    else if p.width >= 8 then Left(p.width - 1, p.polynomial)
    else Left(7, Shl(p.polynomial, 8 - p.width))
  }

  /** One round of the inner loop. */
  function Step(e: Engine, r: Word): (s: Word)
    requires Fits(e, |r|)
    ensures |s| == |r|
  {
    match e
    case Right(poly) => if r[0] then Xor(Shr(r, 1), poly) else Shr(r, 1)
    case Left(top, poly) => if r[top] then Xor(Shl(r, 1), poly) else Shl(r, 1)
  }

  function Steps(e: Engine, r: Word, k: nat): (s: Word)
    requires Fits(e, |r|)
    ensures |s| == |r|
  {
    if k == 0 then r else Step(e, Steps(e, r, k - 1))
  }

  /** Where the eight bits of a byte enter the register. */
  function Entry(e: Engine, b: Word, n: nat): (r: Word)
    requires Fits(e, n) && |b| == 8
    ensures |r| == n
  {
    if e.Right? then Extend(b, n) else Shl(Extend(b, n), e.top - 7)
  }

  function ByteStep(e: Engine, r: Word, b: Word): (s: Word)
    requires Fits(e, |r|) && |b| == 8
    ensures |s| == |r|
  {
    Steps(e, Xor(r, Entry(e, b, |r|)), 8)
  }

  function Fold(e: Engine, data: seq<Byte>, r: Word): (s: Word)
    requires Fits(e, |r|)
    ensures |s| == |r|
  {
    if data == [] then r
    else ByteStep(e, Fold(e, data[..|data| - 1], r), ByteBits(data[|data| - 1]))
  }

  function Enter(p: Parameters, r: Word): (s: Word)
    ensures |s| == |r|
  {
    if p.Narrow() then Shl(r, 8 - p.width) else r
  }

  function Leave(p: Parameters, r: Word): (s: Word)
    ensures |s| == |r|
  {
    if p.Narrow() then Shr(r, 8 - p.width) else r
  }

  /** What CalculateRemainder computes from parameters. */
  function Remainder(p: Parameters, data: seq<Byte>, r: Word): (s: Word)
    requires p.Valid() && |r| == p.digits
    ensures |s| == p.digits
  {
    Leave(p, Fold(EngineOf(p), data, Enter(p, r)))
  }

  /** CalculateRemainder, bit by bit: one loop for each of the three register layouts. */
  method CalculateRemainder(p: Parameters, data: seq<Byte>, remainder: Word) returns (r: Word)
    requires p.Valid() && |remainder| == p.digits
    ensures r == Remainder(p, data, remainder)
  {
    hide Fold, Steps;
    if p.reflectInput {
      r := ReflectedRemainder(p, data, remainder);
    } else if p.width >= 8 {
      r := WideRemainder(p, data, remainder);
    } else {
      r := NarrowRemainder(p, data, Shl(remainder, 8 - p.width));
      r := Shr(r, 8 - p.width);
    }
  }

  method ReflectedRemainder(p: Parameters, data: seq<Byte>, remainder: Word) returns (r: Word)
    requires p.Valid() && |remainder| == p.digits && p.reflectInput
    ensures r == Fold(EngineOf(p), data, remainder)
  {
    ghost var e := EngineOf(p);
    r := remainder;
    var polynomial := Reflect(p.polynomial, p.width);
    for k := 0 to |data|
      invariant |r| == p.digits && r == Fold(e, data[..k], remainder)
    {
      assert data[..k + 1][..k] == data[..k];
      r := Xor(r, Extend(ByteBits(data[k]), p.digits));
      ghost var first := r;
      for i := 0 to 8
        invariant |r| == p.digits && r == Steps(e, first, i)
      {
        r := if r[0] then Xor(Shr(r, 1), polynomial) else Shr(r, 1);
      }
    }
    assert data[..|data|] == data;
  }

  method WideRemainder(p: Parameters, data: seq<Byte>, remainder: Word) returns (r: Word)
    requires p.Valid() && |remainder| == p.digits && !p.reflectInput && p.width >= 8
    ensures r == Fold(EngineOf(p), data, remainder)
  {
    hide Xor, Shl, Extend, ByteBits;
    ghost var e := EngineOf(p);
    r := remainder;
    for k := 0 to |data|
      invariant |r| == p.digits && r == Fold(e, data[..k], remainder)
    {
      assert data[..k + 1][..k] == data[..k];
      r := Xor(r, Shl(Extend(ByteBits(data[k]), p.digits), p.width - 8));
      ghost var first := r;
      for i := 0 to 8
        invariant |r| == p.digits && r == Steps(e, first, i)
      {
        r := if r[p.width - 1] then Xor(Shl(r, 1), p.polynomial) else Shl(r, 1);
      }
    }
    assert data[..|data|] == data;
  }

  lemma ShlNone(w: Word)
    ensures Shl(w, 0) == w
  {
  }

  method NarrowRemainder(p: Parameters, data: seq<Byte>, remainder: Word) returns (r: Word)
    requires p.Valid() && |remainder| == p.digits && p.Narrow()
    ensures r == Fold(EngineOf(p), data, remainder)
  {
    hide Xor, Shl, Extend, ByteBits;
    ghost var e := EngineOf(p);
    var polynomial := Shl(p.polynomial, 8 - p.width);
    r := remainder;
    for k := 0 to |data|
      invariant |r| == p.digits && r == Fold(e, data[..k], remainder)
    {
      assert data[..k + 1][..k] == data[..k];
      r := Xor(r, Extend(ByteBits(data[k]), p.digits));
      ShlNone(Extend(ByteBits(data[k]), p.digits));
      ghost var first := r;
      for i := 0 to 8
        invariant |r| == p.digits && r == Steps(e, first, i)
      {
        r := if r[7] then Xor(Shl(r, 1), polynomial) else Shl(r, 1);
      }
    }
    assert data[..|data|] == data;
  }

  // -- The lookup table ---------------------------------------------------------------

  /** The entry InitTable stores for byte b. */
  function TableEntry(p: Parameters, b: Byte): (r: Word)
    requires p.Valid()
    ensures |r| == p.digits
  {
    var crc := Low(Remainder(p, [b], Zero(p.digits)), p.width);
    if p.Narrow() then Shl(crc, 8 - p.width) else crc
  }

  ghost predicate IsTable(p: Parameters, table: seq<Word>)
    requires p.Valid()
  {
    |table| == 0x100 && forall b | 0 <= b < 0x100 :: table[b] == TableEntry(p, b)
  }

  method InitTable(p: Parameters, table: array<Word>)
    requires p.Valid() && table.Length == 0x100
    modifies table
    ensures IsTable(p, table[..])
  {
    for b := 0 to 0x100
      invariant forall i | 0 <= i < b :: table[i] == TableEntry(p, i)
    {
      var crc := CalculateRemainder(p, [b], Zero(p.digits));
      crc := Low(crc, p.width);
      if !p.reflectInput && p.width < 8 {
        crc := Shl(crc, 8 - p.width);
      }
      table[b] := crc;
    }
  }

  /** One byte of CalculateRemainder by table. */
  function TableStep(p: Parameters, table: seq<Word>, r: Word, b: Byte): (s: Word)
    requires p.Valid() && IsTable(p, table) && |r| == p.digits
    ensures |s| == p.digits
  {
    var byte := Extend(ByteBits(b), p.digits);
    if p.reflectInput then Xor(Shr(r, 8), table[LowByte(Xor(r, byte))])
    else if p.width >= 8 then Xor(Shl(r, 8), table[LowByte(Xor(Shr(r, p.width - 8), byte))])
    else table[LowByte(Xor(r, byte))]
  }

  function TableFold(p: Parameters, table: seq<Word>, data: seq<Byte>, r: Word): (s: Word)
    requires p.Valid() && IsTable(p, table) && |r| == p.digits
    ensures |s| == p.digits
  {
    if data == [] then r
    else TableStep(p, table, TableFold(p, table, data[..|data| - 1], r), data[|data| - 1])
  }

  function TableRemainder(p: Parameters, table: seq<Word>, data: seq<Byte>, r: Word): (s: Word)
    requires p.Valid() && IsTable(p, table) && |r| == p.digits
    ensures |s| == p.digits
  {
    Leave(p, TableFold(p, table, data, Enter(p, r)))
  }

  /** CalculateRemainder, by table. */
  method CalculateRemainderByTable(p: Parameters, table: seq<Word>, data: seq<Byte>, remainder: Word) returns (r: Word)
    requires p.Valid() && IsTable(p, table) && |remainder| == p.digits
    ensures r == TableRemainder(p, table, data, remainder)
  {
    r := if p.Narrow() then Shl(remainder, 8 - p.width) else remainder;
    for k := 0 to |data|
      invariant |r| == p.digits && r == TableFold(p, table, data[..k], Enter(p, remainder))
    {
      assert data[..k + 1][..k] == data[..k];
      var byte := Extend(ByteBits(data[k]), p.digits);
      if p.reflectInput {
        r := Xor(Shr(r, 8), table[LowByte(Xor(r, byte))]);
      } else if p.width >= 8 {
        r := Xor(Shl(r, 8), table[LowByte(Xor(Shr(r, p.width - 8), byte))]);
      } else {
        r := table[LowByte(Xor(r, byte))];
      }
    }
    if p.Narrow() {
      r := Shr(r, 8 - p.width);
    }
    assert data[..|data|] == data;
  }

  // -- The four Calculate overloads ---------------------------------------------------

  function Calculate(p: Parameters, data: seq<Byte>): (r: Word)
    requires p.Valid()
    ensures |r| == p.digits
  {
    Finalize(p, Remainder(p, data, p.initialValue))
  }

  function Resume(p: Parameters, data: seq<Byte>, crc: Word): (r: Word)
    requires p.Valid() && |crc| == p.digits
    ensures |r| == p.digits
  {
    Finalize(p, Remainder(p, data, UndoFinalize(p, crc)))
  }

  function CalculateByTable(p: Parameters, table: seq<Word>, data: seq<Byte>): (r: Word)
    requires p.Valid() && IsTable(p, table)
    ensures |r| == p.digits
  {
    Finalize(p, TableRemainder(p, table, data, p.initialValue))
  }

  function ResumeByTable(p: Parameters, table: seq<Word>, data: seq<Byte>, crc: Word): (r: Word)
    requires p.Valid() && IsTable(p, table) && |crc| == p.digits
    ensures |r| == p.digits
  {
    Finalize(p, TableRemainder(p, table, data, UndoFinalize(p, crc)))
  }
}
