/** What the CRC means: whatever the parameters, the register is one shift register of
    exactly width bits, and its content is the remainder of a polynomial division over GF(2). */
module CrcDivision {
  import opened Bits
  import opened Crc
  import opened CrcTable

  // -- The reference register ---------------------------------------------------------

  /** The shift register of |s| bits takes one message bit. */
  function Feed(poly: Word, s: Word, bit: bool): (r: Word)
    requires |poly| == |s| > 0
    ensures |r| == |s|
  {
    var carry := s[|s| - 1] != bit;
    seq(|s|, i requires 0 <= i < |s| => (i > 0 && s[i - 1]) != (carry && poly[i]))
  }

  function FeedAll(poly: Word, s: Word, bits: seq<bool>): (r: Word)
    requires |poly| == |s| > 0
    ensures |r| == |s|
  {
    if bits == [] then s else Feed(poly, FeedAll(poly, s, bits[..|bits| - 1]), bits[|bits| - 1])
  }

  /** The order in which the bits of a byte are fed: highest first, or lowest first if the
      input is reflected. */
  function Order(b: Word, reflect: bool): (r: seq<bool>)
    requires |b| == 8
    ensures |r| == 8
  {
    seq(8, i requires 0 <= i < 8 => b[if reflect then i else 7 - i])
  }

  function MessageBits(data: seq<Byte>, reflect: bool): seq<bool> {
    if data == [] then []
    else MessageBits(data[..|data| - 1], reflect) + Order(ByteBits(data[|data| - 1]), reflect)
  }

  // -- The register is the remainder of a division ------------------------------------

  /** A polynomial over GF(2) as the set of its exponents; addition is symmetric difference. */
  type Poly = set<nat>

  function Plus(a: Poly, b: Poly): Poly {
    (a - b) + (b - a)
  }

  function TimesX(a: Poly): Poly {
    set i | i in a :: i + 1
  }

  function PolyOf(s: Word): Poly {
    set i | 0 <= i < |s| && s[i]
  }

  /** The divisor x^w + poly. */
  function Divisor(poly: Word): Poly {
    PolyOf(poly) + {|poly|}
  }

  /** The quotient q, highest coefficient first, times the divisor. */
  function Times(q: seq<bool>, g: Poly): Poly {
    if q == [] then {}
    else Plus(TimesX(Times(q[..|q| - 1], g)), if q[|q| - 1] then g else {})
  }

  /** The dividend: the initial register, then the message, times x^w. */
  function Dividend(s: Word, bits: seq<bool>): Poly {
    if bits == [] then PolyOf(s)
    else Plus(TimesX(Dividend(s, bits[..|bits| - 1])), if bits[|bits| - 1] then {|s|} else {})
  }

  /** Feeding a bit multiplies by x, adds the bit at x^w and subtracts the divisor if that
      makes the degree w. */
  lemma FeedIsDivisionStep(poly: Word, s: Word, bit: bool)
    requires |poly| == |s| > 0
    ensures var carry := s[|s| - 1] != bit;
            PolyOf(Feed(poly, s, bit)) ==
            Plus(Plus(TimesX(PolyOf(s)), if bit then {|s|} else {}), if carry then Divisor(poly) else {})
  {
    var n := |s|;
    var l := PolyOf(Feed(poly, s, bit));
    var m := TimesX(PolyOf(s));
    forall i: nat ensures i in m <==> 0 < i <= n && s[i - 1] {
      if 0 < i <= n && s[i - 1] { assert i - 1 in PolyOf(s); }
    }
  }

  lemma TimesXPlus(a: Poly, b: Poly)
    ensures TimesX(Plus(a, b)) == Plus(TimesX(a), TimesX(b))
  {
    forall i: nat ensures i in TimesX(Plus(a, b)) <==> i in Plus(TimesX(a), TimesX(b)) {
      InTimesX(Plus(a, b), i);
      InTimesX(a, i);
      InTimesX(b, i);
    }
  }

  lemma InTimesX(a: Poly, i: nat)
    ensures i in TimesX(a) <==> i > 0 && i - 1 in a
  {
    if i > 0 && i - 1 in a { assert (i - 1) + 1 in TimesX(a); }
  }

  /** Division with remainder, for every message: the dividend is a multiple of the divisor
      plus what the register holds, whose degree is below the width. */
  lemma {:induction false} RegisterIsRemainder(poly: Word, s: Word, bits: seq<bool>) returns (q: seq<bool>)
    requires |poly| == |s| > 0
    ensures |q| == |bits|
    ensures Dividend(s, bits) == Plus(Times(q, Divisor(poly)), PolyOf(FeedAll(poly, s, bits)))
    ensures forall i | i in PolyOf(FeedAll(poly, s, bits)) :: i < |poly|
  {
    if bits == [] {
      q := [];
    } else {
      var front, bit := bits[..|bits| - 1], bits[|bits| - 1];
      var f := RegisterIsRemainder(poly, s, front);
      var reg := FeedAll(poly, s, front);
      var g := Divisor(poly);
      var carry := reg[|reg| - 1] != bit;
      q := f + [carry];
      assert q[..|q| - 1] == f;
      FeedIsDivisionStep(poly, reg, bit);
      TimesXPlus(Times(f, g), PolyOf(reg));
      Regroup(TimesX(Times(f, g)), TimesX(PolyOf(reg)), if bit then {|s|} else {}, if carry then g else {});
    }
  }

  lemma Regroup(a: Poly, b: Poly, c: Poly, d: Poly)
    ensures Plus(Plus(a, b), c) == Plus(Plus(a, d), Plus(Plus(b, c), d))
  {
  }

  lemma {:induction false} FeedAllConcat(poly: Word, s: Word, a: seq<bool>, b: seq<bool>)
    requires |poly| == |s| > 0
    ensures FeedAll(poly, s, a + b) == FeedAll(poly, FeedAll(poly, s, a), b)
  {
    if b == [] {
      assert a + b == a;
    } else {
      FeedAllConcat(poly, s, a, b[..|b| - 1]);
      assert (a + b)[..|a + b| - 1] == a + b[..|b| - 1];
    }
  }

  lemma {:induction false} MessageBitsConcat(a: seq<Byte>, b: seq<Byte>, reflect: bool)
    ensures MessageBits(a + b, reflect) == MessageBits(a, reflect) + MessageBits(b, reflect)
  {
    hide Order, ByteBits;
    if b == [] {
      assert a + b == a;
    } else {
      var front, last := b[..|b| - 1], Order(ByteBits(b[|b| - 1]), reflect);
      MessageBitsConcat(a, front, reflect);
      assert (a + b)[..|a + b| - 1] == a + front;
      assert MessageBits(a + b, reflect) == MessageBits(a + front, reflect) + last;
      assert MessageBits(a, reflect) + MessageBits(front, reflect) + last
          == MessageBits(a, reflect) + (MessageBits(front, reflect) + last);
    }
  }

  // -- The code's registers hold the reference register -------------------------------

  /** The number of bits from the carrying end on that count. */
  function Span(e: Engine, n: nat): nat {
    if e.Right? then n else e.top + 1
  }

  /** Position j counted from the carrying end. */
  function At(e: Engine, n: nat, j: nat): nat
    requires Fits(e, n) && j < Span(e, n)
  {
    if e.Right? then j else e.top - j
  }

  /** Bit j of s from its high end, and pending bit j. */
  function Top(s: Word, j: nat): bool { j < |s| && s[|s| - 1 - j] }

  function Next(pending: seq<bool>, j: nat): bool { j < |pending| && pending[j] }

  /** The register r holds s, highest bit at the carrying end, and pending message bits. */
  ghost predicate Holds(e: Engine, r: Word, s: Word, pending: seq<bool>) {
    && Fits(e, |r|) && |s| <= Span(e, |r|)
    && forall j | 0 <= j < Span(e, |r|) :: r[At(e, |r|, j)] == (Top(s, j) != Next(pending, j))
  }

  /** The engine's polynomial is poly, highest bit at the carrying end. */
  ghost predicate Matches(e: Engine, n: nat, poly: Word) {
    && Fits(e, n) && |poly| <= Span(e, n)
    && forall j | 0 <= j < Span(e, n) :: e.poly[At(e, n, j)] == Top(poly, j)
  }

  lemma StepFeedsAt(e: Engine, r: Word, poly: Word, s: Word, pending: seq<bool>, j: nat)
    requires Matches(e, |r|, poly) && |poly| == |s| > 0 && 0 < |pending| <= 8
    requires Holds(e, r, s, pending) && j < Span(e, |r|)
    ensures Step(e, r)[At(e, |r|, j)] == (Top(Feed(poly, s, pending[0]), j) != Next(pending[1..], j))
  {
    hide Step;
    var n := |r|;
    StepAt(e, r, At(e, n, j));
    assert r[At(e, n, 0)] == (Top(s, 0) != Next(pending, 0));
    assert e.poly[At(e, n, j)] == Top(poly, j);
    if j + 1 < Span(e, n) {
      assert r[At(e, n, j + 1)] == (Top(s, j + 1) != Next(pending, j + 1));
    }
  }

  /** A step of the code's register feeds the first pending bit to the reference register. */
  lemma StepFeeds(e: Engine, r: Word, poly: Word, s: Word, pending: seq<bool>)
    requires Matches(e, |r|, poly) && |poly| == |s| > 0 && 0 < |pending| <= 8
    requires Holds(e, r, s, pending)
    ensures Holds(e, Step(e, r), Feed(poly, s, pending[0]), pending[1..])
  {
    hide Step, Feed, Matches, Top, Next;
    forall j | 0 <= j < Span(e, |r|)
      ensures Step(e, r)[At(e, |r|, j)] == (Top(Feed(poly, s, pending[0]), j) != Next(pending[1..], j))
    {
      StepFeedsAt(e, r, poly, s, pending, j);
    }
  }

  lemma {:induction false} StepsFeed(e: Engine, r: Word, poly: Word, s: Word, bits: seq<bool>, k: nat)
    requires Matches(e, |r|, poly) && |poly| == |s| > 0 && k <= |bits| <= 8
    requires Holds(e, r, s, bits)
    ensures Holds(e, Steps(e, r, k), FeedAll(poly, s, bits[..k]), bits[k..])
  {
    assert Fits(e, |r|);
    hide Holds, Matches, Step, Feed;
    if k > 0 {
      StepsFeed(e, r, poly, s, bits, k - 1);
      StepFeeds(e, Steps(e, r, k - 1), poly, FeedAll(poly, s, bits[..k - 1]), bits[k - 1..]);
      assert bits[..k][..k - 1] == bits[..k - 1];
      assert bits[k - 1..][1..] == bits[k..];
    } else {
      assert bits[..0] == [] && bits[0..] == bits;
    }
  }

  lemma EntryAt(e: Engine, b: Word, n: nat, j: nat)
    requires |b| == 8 && Fits(e, n) && j < Span(e, n)
    ensures Entry(e, b, n)[At(e, n, j)] == Next(Order(b, e.Right?), j)
  {
  }

  /** Absorbing a byte makes its bits pending. */
  lemma EntryIsPending(e: Engine, r: Word, s: Word, b: Word)
    requires |b| == 8 && Holds(e, r, s, [])
    ensures Holds(e, Xor(r, Entry(e, b, |r|)), s, Order(b, e.Right?))
  {
    var n, x, o := |r|, Entry(e, b, |r|), Order(b, e.Right?);
    hide Top, Entry, Order;
    forall j | 0 <= j < Span(e, n) ensures Xor(r, x)[At(e, n, j)] == (Top(s, j) != Next(o, j)) {
      EntryAt(e, b, n, j);
      assert r[At(e, n, j)] == (Top(s, j) != Next([], j));
    }
  }

  lemma ByteFeeds(e: Engine, r: Word, poly: Word, s: Word, b: Word)
    requires Fits(e, |r|) && |b| == 8 && |poly| == |s| > 0 && Matches(e, |r|, poly) && Holds(e, r, s, [])
    ensures Holds(e, ByteStep(e, r, b), FeedAll(poly, s, Order(b, e.Right?)), [])
  {
    hide Holds, Matches, Steps, FeedAll;
    var o := Order(b, e.Right?);
    EntryIsPending(e, r, s, b);
    StepsFeed(e, Xor(r, Entry(e, b, |r|)), poly, s, o, 8);
    assert o[..8] == o && o[8..] == [];
  }

  lemma {:induction false} FoldFeeds(e: Engine, r: Word, poly: Word, s: Word, data: seq<Byte>)
    requires |poly| == |s| > 0 && Matches(e, |r|, poly) && Holds(e, r, s, [])
    ensures Holds(e, Fold(e, data, r), FeedAll(poly, s, MessageBits(data, e.Right?)), [])
  {
    hide Holds, ByteStep, ByteBits, Order;
    if data != [] {
      var front, b := data[..|data| - 1], ByteBits(data[|data| - 1]);
      FoldFeeds(e, r, poly, s, front);
      var m := MessageBits(front, e.Right?);
      ByteFeeds(e, Fold(e, front, r), poly, FeedAll(poly, s, m), b);
      FeedAllConcat(poly, s, m, Order(b, e.Right?));
    }
  }

  // -- The CRC ------------------------------------------------------------------------

  /** The reference polynomial and the register that value x stands for. */
  function Poly0(p: Parameters): (r: Word)
    requires p.Valid()
    ensures |r| == p.width
  {
    p.polynomial[..p.width]
  }

  function Start(p: Parameters, x: Word): (r: Word)
    requires p.Valid() && |x| == p.digits
    ensures |r| == p.width
  {
    (if p.reflectInput then Mirror(x, p.width) else x)[..p.width]
  }

  /** The register after the message. */
  function Register(p: Parameters, data: seq<Byte>): (r: Word)
    requires p.Valid()
    ensures |r| == p.width
  {
    FeedAll(Poly0(p), Start(p, p.initialValue), MessageBits(data, p.reflectInput))
  }

  /** The CRC made of a register: reflected if the output is, then xored. */
  function Output(p: Parameters, s: Word): (r: Word)
    requires p.Valid() && |s| == p.width
    ensures |r| == p.digits
  {
    seq(p.digits, i requires 0 <= i < p.digits =>
      i < p.width && (s[if p.reflectOutput then p.width - 1 - i else i] != p.finalXor[i]))
  }

  /** Nothing above the width. */
  predicate Clean(p: Parameters, x: Word) {
    forall i | p.width <= i < |x| :: !x[i]
  }

  lemma EngineMatches(p: Parameters)
    requires p.Valid()
    ensures Matches(EngineOf(p), p.digits, Poly0(p))
  {
  }

  lemma EnterHolds(p: Parameters, x: Word)
    requires p.Valid() && |x| == p.digits && (p.reflectInput ==> Clean(p, x))
    ensures Holds(EngineOf(p), Enter(p, x), Start(p, x), [])
  {
    hide Holds, Enter, Start, EngineOf, Clean;
    if p.reflectInput {
      EnterReflected(p, x);
    } else {
      EnterPlain(p, x);
    }
  }

  lemma EnterReflected(p: Parameters, x: Word)
    requires p.Valid() && |x| == p.digits && p.reflectInput && Clean(p, x)
    ensures Holds(EngineOf(p), Enter(p, x), Start(p, x), [])
  {
  }

  lemma EnterPlain(p: Parameters, x: Word)
    requires p.Valid() && |x| == p.digits && !p.reflectInput
    ensures Holds(EngineOf(p), Enter(p, x), Start(p, x), [])
  {
  }

  /** Leaving the register and finalizing gives its output. */
  lemma LeaveOutputs(p: Parameters, r: Word, s: Word)
    requires p.Valid() && |r| == p.digits && |s| == p.width && Holds(EngineOf(p), r, s, [])
    ensures Finalize(p, Leave(p, r)) == Output(p, s)
  {
    var e, n := EngineOf(p), p.digits;
    var x := Leave(p, r);
    forall i | 0 <= i < p.width ensures x[i] == s[if p.reflectInput then p.width - 1 - i else i] {
      var j := if p.reflectInput then i else p.width - 1 - i;
      assert r[At(e, n, j)] == (Top(s, j) != Next([], j));
    }
  }

  /** From any clean starting value, the remainder finalizes to the output of the reference
      register fed with the message. */
  lemma RemainderMeaning(p: Parameters, data: seq<Byte>, x: Word)
    requires p.Valid() && |x| == p.digits && (p.reflectInput ==> Clean(p, x))
    ensures Finalize(p, Remainder(p, data, x))
         == Output(p, FeedAll(Poly0(p), Start(p, x), MessageBits(data, p.reflectInput)))
  {
    hide Holds, Matches, FeedAll, Fold, Output, Finalize, Enter, Leave;
    var e := EngineOf(p);
    EngineMatches(p);
    EnterHolds(p, x);
    FoldFeeds(e, Enter(p, x), Poly0(p), Start(p, x), data);
    LeaveOutputs(p, Fold(e, data, Enter(p, x)), FeedAll(Poly0(p), Start(p, x), MessageBits(data, p.reflectInput)));
  }

  /** All the variants of the loop compute one CRC: that of the reference register. */
  lemma CalculateMeaning(p: Parameters, data: seq<Byte>)
    requires p.Valid() && (p.reflectInput ==> Clean(p, p.initialValue))
    ensures Calculate(p, data) == Output(p, Register(p, data))
  {
    RemainderMeaning(p, data, p.initialValue);
  }

  // -- Resuming -----------------------------------------------------------------------

  /** What resuming needs of the parameters: with reflected input, nothing above the width. */
  predicate Resumable(p: Parameters) {
    p.reflectInput ==> Clean(p, p.initialValue) && (p.reflectOutput ==> Clean(p, p.finalXor))
  }

  /** Undoing the output, bit by bit: below the width the register comes back. */
  lemma UndoAt(p: Parameters, s: Word, i: nat)
    requires p.Valid() && |s| == p.width && i < p.digits
    ensures UndoFinalize(p, Output(p, s))[i] ==
            if i < p.width then s[if p.reflectInput then p.width - 1 - i else i]
            else p.reflectInput == p.reflectOutput && p.finalXor[i]
  {
    var x := Xor(Low(Output(p, s), p.width), p.finalXor);
    var k := p.width - 1 - i;
    if i < p.width {
      assert x[i] == s[if p.reflectOutput then k else i];
      assert x[k] == s[if p.reflectOutput then i else k];
    }
  }

  /** UndoFinalize inverts Finalize: it gives back the register behind the CRC. */
  lemma UndoGivesRegister(p: Parameters, s: Word)
    requires p.Valid() && |s| == p.width
    ensures Start(p, UndoFinalize(p, Output(p, s))) == s
    ensures Resumable(p) && p.reflectInput ==> Clean(p, UndoFinalize(p, Output(p, s)))
  {
    hide UndoFinalize, Output;
    forall i | 0 <= i < p.digits {
      UndoAt(p, s, i);
    }
  }

  /** A CRC computed in two parts is the CRC of the whole, for every split. */
  lemma ResumeConcat(p: Parameters, a: seq<Byte>, b: seq<Byte>)
    requires p.Valid() && Resumable(p)
    ensures Resume(p, b, Calculate(p, a)) == Calculate(p, a + b)
  {
    hide Output, Finalize, UndoFinalize, FeedAll, Start;
    var poly, ma, mb := Poly0(p), MessageBits(a, p.reflectInput), MessageBits(b, p.reflectInput);
    CalculateMeaning(p, a);
    CalculateMeaning(p, a + b);
    UndoGivesRegister(p, Register(p, a));
    RemainderMeaning(p, b, UndoFinalize(p, Calculate(p, a)));
    MessageBitsConcat(a, b, p.reflectInput);
    FeedAllConcat(poly, Start(p, p.initialValue), ma, mb);
  }

  /** Types without bits above the width, as that of CRC-32, can always be resumed. */
  lemma ResumeFullWidth(p: Parameters, a: seq<Byte>, b: seq<Byte>)
    requires p.Valid() && p.width == p.digits
    ensures Resume(p, b, Calculate(p, a)) == Calculate(p, a + b)
  {
    assert Resumable(p);
    ResumeConcat(p, a, b);
  }

  lemma ResumeConcatByTable(p: Parameters, table: seq<Word>, a: seq<Byte>, b: seq<Byte>)
    requires p.Valid() && Resumable(p) && IsTable(p, table)
    ensures ResumeByTable(p, table, b, CalculateByTable(p, table, a)) == CalculateByTable(p, table, a + b)
  {
    TableMatchesBits(p, table, a, p.initialValue);
    TableMatchesBits(p, table, b, Calculate(p, a));
    TableMatchesBits(p, table, a + b, p.initialValue);
    ResumeConcat(p, a, b);
  }
}
