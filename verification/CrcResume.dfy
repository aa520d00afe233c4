/** Exactly when a CRC can be resumed: a bit above the width that is in a reflected register is later
    shifted down into the CRC, and resuming puts other bits there than the remainder had. */
module CrcResume {
  import opened Bits
  import opened Crc
  import opened CrcTable
  import opened CrcDivision

  predicate Resumes(p: Parameters, a: seq<Byte>, b: seq<Byte>)
    requires p.Valid()
  {
    Resume(p, b, Calculate(p, a)) == Calculate(p, a + b)
  }

  // -- Messages are linear in the register ------------------------------------------------

  lemma {:induction false} StepsAdd(e: Engine, r: Word, a: nat, b: nat)
    requires Fits(e, |r|)
    ensures Steps(e, r, a + b) == Steps(e, Steps(e, r, a), b)
  {
    if b > 0 {
      StepsAdd(e, r, a, b - 1);
    }
  }

  lemma XorSwap(a: Word, b: Word, c: Word)
    requires |a| == |b| == |c|
    ensures Xor(Xor(a, b), c) == Xor(Xor(a, c), b)
  {
  }

  lemma ByteXor(e: Engine, r: Word, d: Word, b: Word)
    requires Fits(e, |r|) && |d| == |r| && |b| == 8
    ensures ByteStep(e, Xor(r, d), b) == Xor(ByteStep(e, r, b), Steps(e, d, 8))
  {
    hide Steps, Xor, Entry;
    var x := Entry(e, b, |r|);
    XorSwap(r, d, x);
    StepsXor(e, Xor(r, x), d, 8);
  }

  /** A difference in the register goes its own way, whatever the message. */
  lemma {:induction false} FoldXor(e: Engine, data: seq<Byte>, r: Word, d: Word)
    requires Fits(e, |r|) && |d| == |r|
    ensures Fold(e, data, Xor(r, d)) == Xor(Fold(e, data, r), Steps(e, d, 8 * |data|))
  {
    if |data| == 0 {
    } else {
      var most, b := data[..|data| - 1], ByteBits(data[|data| - 1]);
      FoldXor(e, most, r, d);
      hide ByteStep, Steps, Xor, ByteBits;
      ByteXor(e, Fold(e, most, r), Steps(e, d, 8 * |most|), b);
      StepsAdd(e, d, 8 * |most|, 8);
    }
  }

  lemma {:induction false} FoldConcat(e: Engine, a: seq<Byte>, b: seq<Byte>, r: Word)
    requires Fits(e, |r|)
    ensures Fold(e, a + b, r) == Fold(e, b, Fold(e, a, r))
  {
    hide ByteStep, ByteBits;
    if b == [] {
      assert a + b == a;
    } else {
      FoldConcat(e, a, b[..|b| - 1], r);
      assert (a + b)[..|a + b| - 1] == a + b[..|b| - 1];
    }
  }

  // -- Above the width --------------------------------------------------------------------

  /** Above the width a reflected register only shifts. */
  lemma {:induction false} HighBits(e: Engine, r: Word, w: nat, k: nat)
    requires e.Right? && Fits(e, |r|) && forall i | w <= i < |r| :: !e.poly[i]
    ensures forall i | w <= i < |r| :: Steps(e, r, k)[i] == (i + k < |r| && r[i + k])
  {
    if k > 0 {
      HighBits(e, r, w, k - 1);
    }
  }

  lemma ByteHigh(e: Engine, r: Word, b: Word, w: nat, i: nat)
    requires e.Right? && Fits(e, |r|) && |b| == 8 && (forall i | w <= i < |r| :: !e.poly[i]) && w <= i < |r|
    ensures ByteStep(e, r, b)[i] == (i + 8 < |r| && r[i + 8])
  {
    HighBits(e, Xor(r, Entry(e, b, |r|)), w, 8);
    hide Steps;
  }

  /** And a message does not reach there. */
  lemma {:induction false} FoldHigh(e: Engine, data: seq<Byte>, r: Word, w: nat, i: nat)
    requires e.Right? && Fits(e, |r|) && (forall i | w <= i < |r| :: !e.poly[i]) && w <= i < |r|
    ensures Fold(e, data, r)[i] == (i + 8 * |data| < |r| && r[i + 8 * |data|])
  {
    hide ByteStep, ByteBits;
    if |data| > 0 {
      var most, b := data[..|data| - 1], ByteBits(data[|data| - 1]);
      ByteHigh(e, Fold(e, most, r), b, w, i);
      if i + 8 < |r| {
        FoldHigh(e, most, r, w, i + 8);
      }
    }
  }

  /** The bits above the width that the remainder after n bytes and the register picked up for the rest
      disagree on. */
  function Dirt(p: Parameters, n: nat): (d: Word)
    requires p.Valid()
    ensures |d| == p.digits
  {
    seq(p.digits, i requires 0 <= i < p.digits =>
      i >= p.width && ((i + 8 * n < p.digits && p.initialValue[i + 8 * n]) != (p.reflectOutput && p.finalXor[i])))
  }

  lemma FinalizeAt(p: Parameters, r: Word, i: nat)
    requires p.Valid() && |r| == p.digits && i < p.digits
    ensures Finalize(p, r)[i] ==
            (i < p.width && r[if p.reflectInput != p.reflectOutput then p.width - 1 - i else i] != p.finalXor[i])
  {
  }

  /** The register at which Resume picks up: the remainder below the width, above it what
      finalXor has there. */
  lemma UndoFinalizeAt(p: Parameters, r: Word, i: nat)
    requires p.Valid() && |r| == p.digits && i < p.digits
    ensures UndoFinalize(p, Finalize(p, r))[i] ==
            if i < p.width then r[i] else p.reflectInput == p.reflectOutput && p.finalXor[i]
  {
    hide Finalize;
    FinalizeAt(p, r, i);
    if i < p.width {
      FinalizeAt(p, r, p.width - 1 - i);
    }
  }

  lemma NoPolyAbove(p: Parameters)
    requires p.Valid() && p.reflectInput
    ensures var e := EngineOf(p); e.Right? && forall i | p.width <= i < p.digits :: !e.poly[i]
  {
  }

  lemma DirtAt(p: Parameters, a: seq<Byte>, i: nat)
    requires p.Valid() && p.reflectInput && i < p.digits
    ensures var r := Fold(EngineOf(p), a, p.initialValue);
            r[i] == (UndoFinalize(p, Finalize(p, r))[i] != Dirt(p, |a|)[i])
  {
    hide Fold, Finalize, UndoFinalize, EngineOf;
    UndoFinalizeAt(p, Fold(EngineOf(p), a, p.initialValue), i);
    if i >= p.width {
      RemainderHigh(p, a, i);
    }
  }

  lemma RemainderHigh(p: Parameters, a: seq<Byte>, i: nat)
    requires p.Valid() && p.reflectInput && p.width <= i < p.digits
    ensures Fold(EngineOf(p), a, p.initialValue)[i]
         == (i + 8 * |a| < p.digits && p.initialValue[i + 8 * |a|])
  {
    hide Fold, EngineOf;
    NoPolyAbove(p);
    FoldHigh(EngineOf(p), a, p.initialValue, p.width, i);
  }

  /** The remainder is the register picked up and the dirt. */
  lemma DirtIsDifference(p: Parameters, a: seq<Byte>)
    requires p.Valid() && p.reflectInput
    ensures var r := Fold(EngineOf(p), a, p.initialValue);
            r == Xor(UndoFinalize(p, Finalize(p, r)), Dirt(p, |a|))
  {
    hide Fold, Finalize, UndoFinalize, EngineOf, Dirt;
    forall i | 0 <= i < p.digits {
      DirtAt(p, a, i);
    }
  }

  /** Finalizing looks at exactly the bits below the width. */
  lemma FinalizeSame(p: Parameters, u: Word, v: Word)
    requires p.Valid() && |u| == |v| == p.digits
    ensures Finalize(p, u) == Finalize(p, v) <==> forall i | 0 <= i < p.width :: u[i] == v[i]
  {
    hide Finalize;
    forall i | 0 <= i < p.digits
      ensures Finalize(p, u)[i] == Finalize(p, v)[i] <==>
              i < p.width ==> (var k := if p.reflectInput != p.reflectOutput then p.width - 1 - i else i; u[k] == v[k])
    {
      FinalizeAt(p, u, i);
      FinalizeAt(p, v, i);
    }
    if Finalize(p, u) == Finalize(p, v) {
      forall i | 0 <= i < p.width
        ensures u[i] == v[i]
      {
        var k := if p.reflectInput != p.reflectOutput then p.width - 1 - i else i;
        assert Finalize(p, u)[k] == Finalize(p, v)[k];
      }
    }
  }

  // -- Exactly which splits work ----------------------------------------------------------

  /** After n bytes the dirt has not reached the bits below the width by m bytes later. */
  predicate Unseen(p: Parameters, n: nat, m: nat)
    requires p.Valid()
  {
    forall i | 0 <= i < p.width :: !Steps(EngineOf(p), Dirt(p, n), 8 * m)[i]
  }

  /** With reflected input, of any width: a message is resumed rightly exactly if the dirt after its
      first part is unseen after the second. This depends on the lengths of the parts, not on them. */
  lemma SplitExactly(p: Parameters, a: seq<Byte>, b: seq<Byte>)
    requires p.Valid() && p.reflectInput
    ensures Resumes(p, a, b) <==> Unseen(p, |a|, |b|)
  {
    hide Fold, Steps, Finalize, UndoFinalize, EngineOf, Dirt;
    var e, d := EngineOf(p), Dirt(p, |a|);
    var r := Fold(e, a, p.initialValue);
    var u := UndoFinalize(p, Finalize(p, r));
    FoldConcat(e, a, b, p.initialValue);
    DirtIsDifference(p, a);
    FoldXor(e, b, u, d);
    var x, y, g := Fold(e, b, u), Fold(e, b, r), Steps(e, d, 8 * |b|);
    assert forall i | 0 <= i < p.width :: x[i] == y[i] <==> !g[i];
    FinalizeSame(p, x, y);
  }

  /** Nothing comes of an empty register. */
  lemma {:induction false} StepsNone(e: Engine, r: Word, k: nat)
    requires e.Right? && Fits(e, |r|) && forall i | 0 <= i < |r| :: !r[i]
    ensures Steps(e, r, k) == r
  {
    if k > 0 {
      StepsNone(e, r, k - 1);
    }
  }

  /** More bytes than the register has room for. */
  function Beyond(p: Parameters): nat {
    p.digits / 8 + 1
  }

  /** A test of finitely many cases: dirt is not seen for as long as that. */
  predicate UnseenWithin(p: Parameters)
    requires p.Valid()
  {
    forall n: nat, m: nat | n <= Beyond(p) && m <= Beyond(p) :: Unseen(p, n, m)
  }

  /** From then on the dirt is the same. */
  lemma DirtSettles(p: Parameters, n: nat)
    requires p.Valid() && n >= Beyond(p)
    ensures Dirt(p, n) == Dirt(p, Beyond(p))
  {
  }

  /** And dirt that is unseen after as many further bytes is gone. */
  lemma DirtGone(p: Parameters, n: nat, m: nat)
    requires p.Valid() && p.reflectInput && m >= Beyond(p) && Unseen(p, n, Beyond(p))
    ensures Unseen(p, n, m)
  {
    hide Steps, EngineOf, Dirt;
    var e, d, k := EngineOf(p), Dirt(p, n), Beyond(p);
    var gone := Steps(e, d, 8 * k);
    NoPolyAbove(p);
    HighBits(e, d, p.width, 8 * k);
    assert forall i | 0 <= i < |gone| :: !gone[i];
    StepsAdd(e, d, 8 * k, 8 * (m - k));
    StepsNone(e, gone, 8 * (m - k));
  }

  /** Dirt that is unseen up to there is never seen. */
  lemma NeverSeen(p: Parameters, n: nat, m: nat)
    requires p.Valid() && p.reflectInput && UnseenWithin(p)
    ensures Unseen(p, n, m)
  {
    var i := if n > Beyond(p) then Beyond(p) else n;
    if n > i {
      DirtSettles(p, n);
    }
    assert Unseen(p, n, if m > Beyond(p) then Beyond(p) else m) by {
      assert Unseen(p, i, if m > Beyond(p) then Beyond(p) else m);
      hide Steps;
    }
    hide Unseen;
    if m > Beyond(p) {
      DirtGone(p, n, m);
    }
  }

  /** Every message can be resumed at every place exactly if, with reflected input, dirt is never
      seen; and it is enough to look at as many bytes as the register has room for, and one. */
  lemma ResumesExactly(p: Parameters)
    requires p.Valid()
    ensures (forall a, b :: Resumes(p, a, b)) <==> (p.reflectInput ==> forall n, m :: Unseen(p, n, m))
    ensures (forall a, b :: Resumes(p, a, b)) <==> (p.reflectInput ==> UnseenWithin(p))
  {
    hide Resumes, Unseen, Beyond;
    if p.reflectInput {
      if UnseenWithin(p) {
        forall n, m
          ensures Unseen(p, n, m)
        {
          NeverSeen(p, n, m);
        }
      }
      if forall a, b :: Resumes(p, a, b) {
        forall n, m
          ensures Unseen(p, n, m)
        {
          SplitExactly(p, Zeros(n), Zeros(m));
        }
      }
      if forall n, m :: Unseen(p, n, m) {
        forall a, b
          ensures Resumes(p, a, b)
        {
          SplitExactly(p, a, b);
        }
      }
    } else {
      forall a, b
        ensures Resumes(p, a, b)
      {
        PlainResumes(p, a, b);
      }
    }
  }

  lemma PlainResumes(p: Parameters, a: seq<Byte>, b: seq<Byte>)
    requires p.Valid() && Resumable(p)
    ensures Resumes(p, a, b)
  {
    ResumeConcat(p, a, b);
  }

  function Zeros(k: nat): (data: seq<Byte>)
    ensures |data| == k
  {
    seq(k, i => 0)
  }

  // -- From a width of a byte on ----------------------------------------------------------

  lemma {:induction false} LowestBit(x: Word, h: nat) returns (low: nat)
    requires h < |x| && x[h]
    ensures low <= h && x[low] && forall i | 0 <= i < low :: !x[i]
  {
    if i: nat :| i < h && x[i] {
      low := LowestBit(x, i);
    } else {
      low := h;
    }
  }

  /** Dirt is then seen after the right number of bytes: it comes down to the width before it is carried
      out. */
  lemma DirtShows(p: Parameters, n: nat, h: nat) returns (m: nat)
    requires p.Valid() && p.reflectInput && p.width >= 8 && h < p.digits && Dirt(p, n)[h]
    ensures !Unseen(p, n, m)
  {
    hide Steps;
    var d := Dirt(p, n);
    var low := LowestBit(d, h);
    m := (low - p.width) / 8 + 1;
    QuietRight(EngineOf(p), d, 8 * m);
    assert Shr(d, 8 * m)[low - 8 * m];
  }

  /** The highest bit of x, given one. */
  lemma {:induction false} HighestBit(x: Word, h: nat) returns (top: nat)
    requires h < |x| && x[h]
    ensures h <= top < |x| && x[top] && forall i | top < i < |x| :: !x[i]
    decreases |x| - h
  {
    if i :| h < i < |x| && x[i] {
      top := HighestBit(x, i);
    } else {
      top := h;
    }
  }

  /** A parameter set that is not resumable leaves dirt at once or after one byte. */
  lemma SomeDirt(p: Parameters) returns (n: nat, h: nat)
    requires p.Valid() && !Resumable(p)
    ensures n <= 1 && h < p.digits && Dirt(p, n)[h]
  {
    var x := p.initialValue;
    if i :| p.width <= i < p.digits && x[i] != (p.reflectOutput && p.finalXor[i]) {
      n, h := 0, i;
    } else {
      var d :| p.width <= d < p.digits && x[d];
      h := HighestBit(x, d);
      n := 1;
    }
  }

  /** For widths of at least 8 nothing less will do than parameters without bits above the width. */
  lemma WideResumesExactly(p: Parameters)
    requires p.Valid() && p.width >= 8
    ensures (forall a, b :: Resumes(p, a, b)) <==> Resumable(p)
  {
    hide Resumes, Unseen, Dirt;
    if Resumable(p) {
      forall a, b
        ensures Resumes(p, a, b)
      {
        PlainResumes(p, a, b);
      }
    } else {
      var n, h := SomeDirt(p);
      var m := DirtShows(p, n, h);
      SplitExactly(p, Zeros(n), Zeros(m));
    }
  }

  // -- What the CRC is with bits above the width ------------------------------------------

  /** The bits of x above the width. */
  function High(x: Word, w: nat): (r: Word)
    ensures |r| == |x|
  {
    seq(|x|, i requires 0 <= i < |x| => i >= w && x[i])
  }

  /** What they add to the reference register by the end of n bytes. */
  function Stray(p: Parameters, x: Word, n: nat): (s: Word)
    requires p.Valid() && |x| == p.digits
    ensures |s| == p.width
  {
    seq(p.width, i requires 0 <= i < p.width =>
      p.reflectInput && Steps(EngineOf(p), High(x, p.width), 8 * n)[p.width - 1 - i])
  }

  /** For every parameter set: the CRC is the output of the reference register and of what bits above
      the width of the initial value have become. */
  lemma CalculateMeaningAlways(p: Parameters, data: seq<Byte>)
    requires p.Valid()
    ensures Calculate(p, data) == Output(p, Xor(Register(p, data), Stray(p, p.initialValue, |data|)))
  {
    if p.reflectInput {
      ReflectedMeaning(p, data);
    } else {
      CalculateMeaning(p, data);
      assert Xor(Register(p, data), Stray(p, p.initialValue, |data|)) == Register(p, data);
    }
  }

  lemma LowAndHigh(p: Parameters, x: Word)
    requires p.Valid() && |x| == p.digits
    ensures x == Xor(Low(x, p.width), High(x, p.width))
    ensures Start(p, Low(x, p.width)) == Start(p, x) && Clean(p, Low(x, p.width))
  {
  }

  lemma ReflectedMeaning(p: Parameters, data: seq<Byte>)
    requires p.Valid() && p.reflectInput
    ensures Calculate(p, data) == Output(p, Xor(Register(p, data), Stray(p, p.initialValue, |data|)))
  {
    hide Fold, Steps, Finalize, EngineOf, FeedAll, MessageBits, Low, High, Start, Output, Xor;
    var e, x := EngineOf(p), p.initialValue;
    var low, high := Low(x, p.width), High(x, p.width);
    LowAndHigh(p, x);
    FoldXor(e, data, low, high);
    RemainderMeaning(p, data, low);
    var f, g := Fold(e, data, low), Steps(e, high, 8 * |data|);
    var s := Register(p, data);
    FinalizedBits(p, f, g, s, Stray(p, x, |data|));
  }

  lemma FinalizedBits(p: Parameters, f: Word, g: Word, s: Word, t: Word)
    requires p.Valid() && p.reflectInput && |f| == |g| == p.digits && |s| == |t| == p.width
    requires Finalize(p, f) == Output(p, s) && forall i | 0 <= i < p.width :: t[i] == g[p.width - 1 - i]
    ensures Finalize(p, Xor(f, g)) == Output(p, Xor(s, t))
  {
    hide Finalize;
    forall i | 0 <= i < p.digits
      ensures Finalize(p, Xor(f, g))[i] == Output(p, Xor(s, t))[i]
    {
      FinalizeAt(p, f, i);
      FinalizeAt(p, Xor(f, g), i);
      assert Finalize(p, f)[i] == Output(p, s)[i];
    }
  }
}
