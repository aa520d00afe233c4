/**
 * The base57 text form of binary data: each group of 8 bytes, read as a big-endian number, becomes
 * 11 digits; a shorter last group keeps only its leading digits. Decoding turns each 11 characters
 * back into 8 bytes and gives nothing at all when a character or a group is invalid.
 */
module Base57 {
  import opened Arithmetic

  const U64: nat := 0x1_0000_0000_0000_0000

  // -- Positional numbers ---------------------------------------------------------------

  function Power(base: nat, n: nat): (p: nat)
    requires base > 0
    ensures p > 0
  {
    if n == 0 then 1 else base * Power(base, n - 1)
  }

  predicate All(ds: seq<nat>, base: nat) {
    forall i :: 0 <= i < |ds| ==> ds[i] < base
  }

  /** n digits of v, the most significant first. */
  function Digits(v: nat, n: nat, base: nat): (ds: seq<nat>)
    requires base > 0
    ensures |ds| == n
    decreases n
  {
    if n == 0 then [] else Digits(v / base, n - 1, base) + [v % base]
  }

  lemma {:induction false} DigitsAll(v: nat, n: nat, base: nat)
    requires base > 0
    ensures All(Digits(v, n, base), base)
    decreases n
  {
    if n > 0 {
      DigitsAll(v / base, n - 1, base);
    }
  }

  function Number(ds: seq<nat>, base: nat): nat {
    if |ds| == 0 then 0 else Number(ds[..|ds| - 1], base) * base + ds[|ds| - 1]
  }

  lemma DivideBelow(v: nat, base: nat, p: nat)
    requires base > 0 && v < base * p
    ensures v / base < p
  {
    var q := v / base;
    assert q >= p ==> base * q >= base * p;
  }

  lemma Recombine(v: nat, base: nat)
    requires base > 0
    ensures v / base * base + v % base == v
  {
  }

  lemma NumberLast(ds: seq<nat>, d: nat, base: nat)
    ensures Number(ds + [d], base) == Number(ds, base) * base + d
  {
    assert (ds + [d])[..|ds|] == ds;
  }

  lemma {:induction false} NumberOfDigits(v: nat, n: nat, base: nat)
    requires base > 0 && v < Power(base, n)
    ensures Number(Digits(v, n, base), base) == v
    decreases n
  {
    if n > 0 {
      var q, r := v / base, v % base;
      var most := Digits(q, n - 1, base);
      assert Digits(v, n, base) == most + [r];
      DivideBelow(v, base, Power(base, n - 1));
      NumberOfDigits(q, n - 1, base);
      NumberLast(most, r, base);
      Recombine(v, base);
    }
  }

  lemma QuotientAndRest(q: nat, r: nat, base: nat)
    requires r < base
    ensures (q * base + r) / base == q && (q * base + r) % base == r
  {
    Divided(base, q * base + r, q, r);
  }

  lemma {:induction false} DigitsOfNumber(ds: seq<nat>, base: nat)
    requires base > 0 && All(ds, base)
    ensures Digits(Number(ds, base), |ds|, base) == ds
  {
    if |ds| > 0 {
      var most, last := ds[..|ds| - 1], ds[|ds| - 1];
      DigitsOfNumber(most, base);
      QuotientAndRest(Number(most, base), last, base);
      assert ds == most + [last];
    }
  }

  lemma Scale(x: nat, p: nat, base: nat)
    requires x < p
    ensures x * base + base <= base * p
  {
    var d := p - x - 1;
    assert base * p == base * (x + 1 + d) == base * x + base + base * d;
  }

  lemma {:induction false} NumberBelow(ds: seq<nat>, base: nat)
    requires base > 0 && All(ds, base)
    ensures Number(ds, base) < Power(base, |ds|)
  {
    if |ds| > 0 {
      var most, last := ds[..|ds| - 1], ds[|ds| - 1];
      NumberBelow(most, base);
      Scale(Number(most, base), Power(base, |most|), base);
    }
  }

  /** The weight of the first digit. */
  lemma {:induction false} NumberFirst(d: nat, rest: seq<nat>, base: nat)
    requires base > 0
    ensures Number([d] + rest, base) == d * Power(base, |rest|) + Number(rest, base)
  {
    var ds := [d] + rest;
    if |rest| == 0 {
      assert ds[..0] == [];
    } else {
      var most := rest[..|rest| - 1];
      NumberFirst(d, most, base);
      assert ds[..|ds| - 1] == [d] + most;
      assert (d * Power(base, |most|) + Number(most, base)) * base
          == d * (base * Power(base, |most|)) + Number(most, base) * base;
    }
  }

  // -- Characters -----------------------------------------------------------------------

  datatype Option<T> = None | Some(value: T)

  /** The digit of a character, following the cases of the source. */
  function ToVal(c: char): Option<nat> {
    if '0' <= c <= '9' then Some(c as nat - '0' as nat)
    else if 'A' <= c <= 'Z' then
      if c in {'B', 'D', 'I', 'O'} then None
      else
        var skipped := if c > 'O' then 4 else if c > 'I' then 3 else if c > 'D' then 2 else if c > 'B' then 1 else 0;
        Some(c as nat - skipped - 'A' as nat + 10)
    else if 'a' <= c <= 'z' then
      if c == 'l' then None
      else Some(c as nat - (if c > 'l' then 1 else 0) - 'a' as nat + 10 + 22)
    else None
  }

  /** The alphabet of the source, in pieces: digits, then letters without B, D, I, O and l. */
  function Letter(d: nat): char
    requires d < 57
  {
    if d < 10 then "0123456789"[d]
    else if d < 16 then "ACEFGH"[d - 10]
    else if d < 21 then "JKLMN"[d - 16]
    else if d < 32 then "PQRSTUVWXYZ"[d - 21]
    else if d < 43 then "abcdefghijk"[d - 32]
    else "mnopqrstuvwxyz"[d - 43]
  }

  lemma DigitOfLetter(d: nat)
    requires d < 57
    ensures ToVal(Letter(d)) == Some(d)
  {
    hide ToVal, Letter;
    if d < 32 {
      DigitOfFirst(d);
    } else {
      DigitOfLower(d);
    }
  }

  lemma DigitOfFirst(d: nat)
    requires d < 32
    ensures ToVal(Letter(d)) == Some(d)
  {
  }

  lemma DigitOfLower(d: nat)
    requires 32 <= d < 57
    ensures ToVal(Letter(d)) == Some(d)
  {
  }

  lemma LetterOfDigit(c: char)
    ensures ToVal(c).Some? ==> ToVal(c).value < 57 && Letter(ToVal(c).value) == c
  {
  }

  // -- The two directions ---------------------------------------------------------------

  function Zeros(n: nat): (ds: seq<nat>)
    ensures |ds| == n && All(ds, 1)
  {
    if n == 0 then [] else Zeros(n - 1) + [0]
  }

  /** How many digits a last group of r bytes keeps. */
  function Tail(r: nat): (n: nat)
    requires r < 8
    ensures r <= n <= 10 && (r > 0 ==> r < n)
  {
    [0, 2, 3, 5, 6, 7, 9, 10][r]
  }

  /** That is the least number of digits that tells all r bytes apart. */
  lemma TailIsLeast(r: nat)
    requires 0 < r < 8
    ensures Power(57, Tail(r) - 1) < Power(256, r) <= Power(57, Tail(r))
  {
  }

  function Letters(ds: seq<nat>): (s: string)
    requires All(ds, 57)
    ensures |s| == |ds| && forall i :: 0 <= i < |ds| ==> s[i] == Letter(ds[i])
  {
    seq(|ds|, i requires 0 <= i < |ds| => Letter(ds[i]))
  }

  /** Up to 8 bytes as a big-endian number, missing bytes taken as 0. */
  function Load(data: seq<nat>): nat {
    var b := data[..Min(8, |data|)];
    Number(b + Zeros(8 - |b|), 256)
  }

  /** The 11 digits of a group. */
  function Group(data: seq<nat>): (ds: seq<nat>)
    ensures |ds| == 11 && All(ds, 57)
  {
    DigitsAll(Load(data), 11, 57);
    Digits(Load(data), 11, 57)
  }

  function Encode(data: seq<nat>): string {
    if |data| == 0 then ""
    else if |data| < 8 then Letters(Group(data)[..Tail(|data|)])
    else Letters(Group(data)) + Encode(data[8..])
  }

  /** The digit at place k of a group; a missing character stands for 0. */
  function DigitAt(s: string, k: nat): Option<nat> {
    if k < |s| then ToVal(s[k]) else Some(0)
  }

  predicate Readable(s: string, n: nat) {
    forall k :: n <= k < 11 ==> DigitAt(s, k).Some?
  }

  function Places(s: string, n: nat): (ds: seq<nat>)
    requires n <= 11 && Readable(s, n)
    ensures |ds| == 11 - n
  {
    seq(11 - n, i requires 0 <= i < 11 - n => DigitAt(s, n + i).value)
  }

  /** The number in the next 11 characters, if all are digits and it fits in 64 bits. */
  function Value(s: string): Option<nat> {
    if Readable(s, 0) && Number(Places(s, 0), 57) < U64 then Some(Number(Places(s, 0), 57)) else None
  }

  function Decode(s: string): Option<seq<nat>> {
    if |s| == 0 then Some([])
    else if Value(s).None? then None
    else After(Digits(Value(s).value, 8, 256), Decode(s[Min(11, |s|)..]))
  }

  function After(bytes: seq<nat>, rest: Option<seq<nat>>): Option<seq<nat>> {
    if rest.None? then None else Some(bytes + rest.value)
  }

  // -- Decoding inverts encoding --------------------------------------------------------

  lemma Powers()
    ensures Power(256, 8) == U64 && U64 <= Power(57, 11)
  {
    assert Power(256, 4) == 0x1_0000_0000;
    assert Power(256, 8) == U64;
    assert Power(57, 5) == 601692057;
    assert Power(57, 11) == 57 * 601692057 * 601692057;
  }

  lemma PlaceOf(ds: seq<nat>, rest: string, k: nat)
    requires All(ds, 57) && |ds| <= 11 && (|ds| == 11 || rest == "") && k < 11
    ensures DigitAt(Letters(ds) + rest, k) == Some((ds + Zeros(11 - |ds|))[k])
  {
    hide ToVal, Letter, Letters, Zeros;
    var s := Letters(ds) + rest;
    if k < |ds| {
      assert s[k] == Letters(ds)[k];
      DigitOfLetter(ds[k]);
    } else {
      assert (ds + Zeros(11 - |ds|))[k] == Zeros(11 - |ds|)[k - |ds|];
    }
  }

  lemma LettersPlaces(ds: seq<nat>, rest: string)
    requires All(ds, 57) && |ds| <= 11 && (|ds| == 11 || rest == "")
    ensures Readable(Letters(ds) + rest, 0) && Places(Letters(ds) + rest, 0) == ds + Zeros(11 - |ds|)
  {
    hide DigitAt, Letters, Zeros;
    forall k | 0 <= k < 11
      ensures DigitAt(Letters(ds) + rest, k) == Some((ds + Zeros(11 - |ds|))[k])
    {
      PlaceOf(ds, rest, k);
    }
  }

  lemma LoadBelow(data: seq<nat>)
    requires All(data, 256)
    ensures Load(data) < U64
  {
    hide Number, Power;
    var b := data[..Min(8, |data|)];
    NumberBelow(b + Zeros(8 - |b|), 256);
    Powers();
  }

  /** The letters of a whole group hold its number, and its number holds its bytes. */
  lemma WholeGroup(data: seq<nat>, rest: string)
    requires All(data, 256) && |data| >= 8
    ensures Value(Letters(Group(data)) + rest) == Some(Load(data))
    ensures Digits(Load(data), 8, 256) == data[..8]
  {
    hide Number, Digits, Power, Letters, Places, Readable;
    LettersPlaces(Group(data), rest);
    assert Group(data) + Zeros(0) == Group(data);
    LoadBelow(data);
    Powers();
    NumberOfDigits(Load(data), 11, 57);
    assert data[..8] + Zeros(0) == data[..8];
    DigitsOfNumber(data[..8], 256);
  }

  /** v with its last k digits replaced by zeros. */
  function Cut(v: nat, k: nat, base: nat): nat
    requires base > 0
    decreases k
  {
    if k == 0 then v else Cut(v / base, k - 1, base) * base
  }

  /** It is v rounded down to a multiple of the k-th power. */
  lemma {:induction false} CutMeaning(v: nat, k: nat, base: nat) returns (m: nat)
    requires base > 0
    ensures Cut(v, k, base) == m * Power(base, k)
    ensures Cut(v, k, base) <= v < Cut(v, k, base) + Power(base, k)
    decreases k
  {
    if k == 0 {
      return v;
    }
    var q, p := v / base, Power(base, k - 1);
    m := CutMeaning(q, k - 1, base);
    var c := Cut(q, k - 1, base);
    assert Cut(v, k, base) == c * base && Power(base, k) == base * p;
    hide Cut, Power;
    Regroup(m, p, base);
    Bracket(v, c, p, base);
  }

  lemma Regroup(x: nat, y: nat, z: nat)
    ensures x * y * z == x * (z * y)
  {
  }

  lemma Bracket(v: nat, c: nat, p: nat, base: nat)
    requires base > 0 && c <= v / base < c + p
    ensures c * base <= v < c * base + base * p
  {
    var q, r := v / base, v % base;
    Recombine(v, base);
    assert q * base == c * base + (q - c) * base;
    Scale(q - c, p, base);
  }

  lemma {:induction false} CutDigits(v: nat, n: nat, k: nat, base: nat)
    requires base > 0 && k <= n && v < Power(base, n)
    ensures Number(Digits(v, n, base)[..n - k] + Zeros(k), base) == Cut(v, k, base)
    decreases k
  {
    if k == 0 {
      assert Digits(v, n, base)[..n] + Zeros(0) == Digits(v, n, base);
      NumberOfDigits(v, n, base);
    } else {
      var q := v / base;
      var kept := Digits(q, n - 1, base)[..n - k];
      assert Digits(v, n, base)[..n - k] == kept;
      assert kept + Zeros(k) == (kept + Zeros(k - 1)) + [0];
      DivideBelow(v, base, Power(base, n - 1));
      CutDigits(q, n - 1, k - 1, base);
      NumberLast(kept + Zeros(k - 1), 0, base);
    }
  }

  /** The number that is left of a short group, its last digits being cut off. */
  function Rounded(data: seq<nat>): nat
    requires 0 < |data| < 8
  {
    Cut(Load(data), 11 - Tail(|data|), 57)
  }

  lemma ShortValue(data: seq<nat>)
    requires All(data, 256) && 0 < |data| < 8
    ensures Value(Letters(Group(data)[..Tail(|data|)])) == Some(Rounded(data))
  {
    hide Number, Digits, Power, Letters, Places, Readable, Cut, Tail, Zeros, Load;
    var t, v := Tail(|data|), Load(data);
    var ds := Group(data)[..t];
    assert Letters(ds) + "" == Letters(ds);
    LettersPlaces(ds, "");
    LoadBelow(data);
    Powers();
    CutDigits(v, 11, 11 - t, 57);
    var m := CutMeaning(v, 11 - t, 57);
  }

  lemma ShortGroup(data: seq<nat>)
    requires All(data, 256) && 0 < |data| < 8
    ensures Decode(Letters(Group(data)[..Tail(|data|)])) == Some(Digits(Rounded(data), 8, 256))
  {
    hide Value, Digits, Letters, Group, Tail, Rounded;
    ShortValue(data);
    var text := Letters(Group(data)[..Tail(|data|)]);
    assert text[|text|..] == "";
    assert Digits(Rounded(data), 8, 256) + [] == Digits(Rounded(data), 8, 256);
  }

  /** The whole groups, and for a short last group the 8 bytes of its number rounded down. */
  function Decoded(data: seq<nat>): seq<nat> {
    if |data| == 0 then []
    else if |data| < 8 then Digits(Rounded(data), 8, 256)
    else data[..8] + Decoded(data[8..])
  }

  lemma {:induction false} DecodeEncode(data: seq<nat>)
    requires All(data, 256)
    ensures Decode(Encode(data)) == Some(Decoded(data))
    decreases |data|
  {
    hide Value, Letters, Group, Digits, Rounded, Tail;
    if |data| == 0 {
    } else if |data| < 8 {
      ShortGroup(data);
    } else {
      var rest := data[8..];
      var text := Letters(Group(data)) + Encode(rest);
      DecodeEncode(rest);
      WholeGroup(data, Encode(rest));
      assert text[11..] == Encode(rest);
    }
  }

  lemma {:induction false} DecodedWhole(data: seq<nat>)
    ensures |Decoded(data)| % 8 == 0
    ensures |data| % 8 == 0 ==> Decoded(data) == data
    decreases |data|
  {
    hide Digits, Rounded;
    if |data| >= 8 {
      DecodedWhole(data[8..]);
      assert data == data[..8] + data[8..];
    }
  }

  /** Decoding gives back what was encoded exactly when that is a whole number of groups. */
  lemma RoundTripExactly(data: seq<nat>)
    requires All(data, 256)
    ensures Decode(Encode(data)) == Some(data) <==> |data| % 8 == 0
  {
    DecodeEncode(data);
    DecodedWhole(data);
  }

  // -- Encoding inverts decoding --------------------------------------------------------

  lemma {:induction false} ReadLetters(s: string)
    requires |s| >= 11 && Readable(s, 0)
    ensures All(Places(s, 0), 57) && Letters(Places(s, 0)) == s[..11]
  {
    hide ToVal, Letter;
    var ds := Places(s, 0);
    forall k | 0 <= k < 11
      ensures ds[k] < 57 && Letter(ds[k]) == s[k]
    {
      LetterOfDigit(s[k]);
    }
  }

  lemma WholeText(s: string, rest: seq<nat>)
    requires |s| >= 11 && Value(s).Some?
    ensures var bytes := Digits(Value(s).value, 8, 256) + rest;
            All(Digits(Value(s).value, 8, 256), 256) && Letters(Group(bytes)) == s[..11]
  {
    hide Number, Digits, Power, Letters, Places, Readable;
    var v := Value(s).value;
    var bytes := Digits(v, 8, 256);
    ReadLetters(s);
    DigitsAll(v, 8, 256);
    DigitsOfNumber(Places(s, 0), 57);
    Powers();
    NumberOfDigits(v, 8, 256);
    assert (bytes + rest)[..8] == bytes;
    assert bytes + Zeros(0) == bytes;
  }

  /** A text of whole groups that decodes is the encoding of what it decodes to. */
  lemma {:induction false} ReEncode(s: string)
    requires |s| % 11 == 0 && Decode(s).Some?
    ensures All(Decode(s).value, 256) && Encode(Decode(s).value) == s
    decreases |s|
  {
    hide Value, Letters, Group, Digits;
    if |s| > 0 {
      var rest := s[11..];
      ReEncode(rest);
      var more := Decode(rest).value;
      WholeText(s, more);
      var bytes := Digits(Value(s).value, 8, 256) + more;
      assert bytes[8..] == more;
      assert s[..11] + rest == s;
    }
  }

  // -- No two byte strings have one text ------------------------------------------------

  /** What is cut off a short group is worth less than its last byte. */
  lemma CutIsSmall(r: nat)
    requires 0 < r < 8
    ensures Power(57, 11 - Tail(r)) <= Power(256, 8 - r)
  {
    assert Power(57, 1) == 57 && Power(57, 2) == 3249 && Power(57, 4) == 10556001;
    assert Power(57, 5) == 601692057 && Power(57, 6) == 34296447249;
    assert Power(57, 8) == 57 * 57 * 34296447249;
    assert Power(57, 9) == 57 * 57 * 57 * 34296447249;
    assert Power(256, 1) == 0x100 && Power(256, 2) == 0x1_0000 && Power(256, 3) == 0x100_0000;
    assert Power(256, 4) == 0x1_0000_0000 && Power(256, 5) == 0x100_0000_0000;
    assert Power(256, 6) == 0x1_0000_0000_0000 && Power(256, 7) == 0x100_0000_0000_0000;
  }

  lemma {:induction false} NumberShifted(ds: seq<nat>, n: nat, base: nat)
    requires base > 0
    ensures Number(ds + Zeros(n), base) == Number(ds, base) * Power(base, n)
  {
    if n == 0 {
      assert ds + Zeros(0) == ds;
    } else {
      NumberShifted(ds, n - 1, base);
      assert ds + Zeros(n) == (ds + Zeros(n - 1)) + [0];
      NumberLast(ds + Zeros(n - 1), 0, base);
      Regroup(Number(ds, base), Power(base, n - 1), base);
    }
  }

  /** Multiples of w that round down to the same number by less than w are equal. */
  lemma SameMultiple(x: nat, y: nat, w: nat, c: nat, u: nat)
    requires u <= w && c <= x * w < c + u && c <= y * w < c + u
    ensures x == y
  {
    assert w * x == x * w && w * y == y * w;
    NextMultiple(w, x, y);
    NextMultiple(w, y, x);
  }

  lemma ShortInjective(a: seq<nat>, b: seq<nat>)
    requires All(a, 256) && All(b, 256) && 0 < |a| == |b| < 8 && Rounded(a) == Rounded(b)
    ensures a == b
  {
    hide Number, Power, Cut, Zeros, Tail;
    var r := |a|;
    var k := 11 - Tail(r);
    CutIsSmall(r);
    var m := CutMeaning(Load(a), k, 57);
    var n := CutMeaning(Load(b), k, 57);
    assert a[..r] == a && b[..r] == b;
    NumberShifted(a, 8 - r, 256);
    NumberShifted(b, 8 - r, 256);
    SameMultiple(Number(a, 256), Number(b, 256), Power(256, 8 - r), Rounded(a), Power(57, k));
    DigitsOfNumber(a, 256);
    DigitsOfNumber(b, 256);
  }

  /** The length of a text tells the length of the data. */
  lemma SizeInjective(m: nat, n: nat)
    requires m / 8 * 11 + Tail(m % 8) == n / 8 * 11 + Tail(n % 8)
    ensures m == n
  {
    TailInjective(m % 8, n % 8);
    hide Tail;
  }

  lemma TailInjective(r: nat, s: nat)
    requires r < 8 && s < 8
    ensures Tail(r) <= 10 && Tail(s) <= 10 && (Tail(r) == Tail(s) ==> r == s)
  {
  }

  /** Different data have different texts, whatever their lengths. */
  lemma {:induction false} EncodeInjective(a: seq<nat>, b: seq<nat>)
    requires All(a, 256) && All(b, 256) && Encode(a) == Encode(b)
    ensures a == b
    decreases |a|
  {
    EncodeSize(a);
    EncodeSize(b);
    SizeInjective(|a|, |b|);
    SameSize(a, b);
  }

  lemma {:induction false} SameSize(a: seq<nat>, b: seq<nat>)
    requires All(a, 256) && All(b, 256) && |a| == |b| && Encode(a) == Encode(b)
    ensures a == b
    decreases |a|
  {
    hide Value, Letters, Group, Digits, Rounded, Tail, Load;
    if |a| == 0 {
    } else if |a| < 8 {
      ShortValue(a);
      ShortValue(b);
      ShortInjective(a, b);
    } else {
      WholeGroup(a, Encode(a[8..]));
      WholeGroup(b, Encode(b[8..]));
      var x, y := Letters(Group(a)) + Encode(a[8..]), Letters(Group(b)) + Encode(b[8..]);
      assert x[11..] == Encode(a[8..]) && y[11..] == Encode(b[8..]);
      SameSize(a[8..], b[8..]);
      assert a == a[..8] + a[8..] && b == b[..8] + b[8..];
    }
  }

  // -- The loops of the source ----------------------------------------------------------

  /** The text has the size that is computed before the loop. */
  lemma {:induction false} EncodeSize(data: seq<nat>)
    ensures |Encode(data)| == |data| / 8 * 11 + Tail(|data| % 8)
    decreases |data|
  {
    hide Group, Letters;
    if |data| >= 8 {
      EncodeSize(data[8..]);
    }
  }

  /** The first group of a text, and what follows it. */
  lemma FirstGroup(data: seq<nat>)
    requires |data| > 0
    ensures forall k :: 0 <= k < 11 && k < |Encode(data)| ==> Encode(data)[k] == Letter(Group(data)[k])
    ensures if |data| <= 8 then |Encode(data)| <= 11
            else |Encode(data)| >= 11 && Encode(data)[11..] == Encode(data[8..])
  {
    hide Group, Letter, Tail;
  }

  /** Writes the 11 letters of a group from the last to the first, as far as the text goes. */
  method PutGroup(text: array<char>, p: nat, number: nat)
    modifies text
    ensures forall k :: p <= k < p + 11 && k < text.Length ==>
              0 <= k - p < |Digits(number, 11, 57)| && Digits(number, 11, 57)[k - p] < 57 &&
              text[k] == Letter(Digits(number, 11, 57)[k - p])
    ensures forall k :: 0 <= k < text.Length && !(p <= k < p + 11) ==> text[k] == old(text[k])
  {
    hide Letter, Digits;
    var value, j := number, 10;
    ghost var ds := Digits(number, 11, 57);
    DigitsAll(number, 11, 57);
    assert ds[..11] == ds;
    while j >= 0
      invariant -1 <= j <= 10 && ds[..j + 1] == Digits(value, j + 1, 57)
      invariant forall k :: p + j < k < p + 11 && k < text.Length ==> text[k] == Letter(ds[k - p])
      invariant forall k :: 0 <= k < text.Length && !(p + j < k < p + 11) ==> text[k] == old(text[k])
    {
      LastDigit(ds, value, j);
      if p + j < text.Length {
        text[p + j] := Letter(value % 57);
      }
      value := value / 57;
      j := j - 1;
    }
  }

  lemma LastDigit(ds: seq<nat>, value: nat, j: nat)
    requires j < |ds| && ds[..j + 1] == Digits(value, j + 1, 57)
    ensures ds[j] == value % 57 && ds[..j] == Digits(value / 57, j, 57)
  {
    assert ds[j] == ds[..j + 1][j];
    assert ds[..j] == ds[..j + 1][..j];
  }

  /** Appends the text form of the data. */
  method Format(out: string, data: seq<nat>) returns (r: string)
    requires All(data, 256)
    ensures r == out + Encode(data)
  {
    hide Encode, Letter, Load, Digits, Tail;
    if |data| == 0 {
      Empty();
      return out;
    }
    var size := |data| / 8 * 11 + Tail(|data| % 8);
    var text := new char[size];
    ghost var whole := Encode(data);
    EncodeSize(data);
    assert data[0..] == data && whole[0..] == whole;
    var i, p := 0, 0;
    while i < |data|
      invariant 0 <= i && 0 <= p
      invariant i < |data| ==> p <= size && whole[p..] == Encode(data[i..])
      invariant i >= |data| ==> p >= size
      invariant forall k :: 0 <= k < p && k < size ==> text[k] == whole[k]
    {
      var rest := data[i..];
      FirstGroup(rest);
      PutGroup(text, p, Load(rest));
      forall k | p <= k < p + 11 && k < size
        ensures text[k] == whole[k]
      {
        assert whole[k] == whole[p..][k - p];
      }
      assert |rest| > 8 ==> rest[8..] == data[i + 8..] && whole[p + 11..] == whole[p..][11..];
      i, p := i + 8, p + 11;
    }
    assert text[..] == whole;
    r := out + text[..];
  }

  lemma Empty()
    ensures Encode([]) == ""
  {
  }

  // -- Reading a text -------------------------------------------------------------------

  lemma PlacesFirst(s: string, n: nat)
    requires n < 11 && Readable(s, n)
    ensures Readable(s, n + 1) && Places(s, n) == [DigitAt(s, n).value] + Places(s, n + 1)
    ensures Number(Places(s, n), 57)
         == DigitAt(s, n).value * Power(57, 10 - n) + Number(Places(s, n + 1), 57)
  {
    hide DigitAt, Number, Power;
    assert Places(s, n) == [DigitAt(s, n).value] + Places(s, n + 1);
    NumberFirst(DigitAt(s, n).value, Places(s, n + 1), 57);
  }

  /** The places on the left only add to the number. */
  lemma {:induction false} PlacesGrow(s: string, n: nat)
    requires n <= 11 && Readable(s, 0)
    ensures Number(Places(s, n), 57) <= Number(Places(s, 0), 57)
  {
    hide DigitAt, Number, Power, Places;
    if n > 0 {
      PlacesGrow(s, n - 1);
      PlacesFirst(s, n - 1);
    }
  }

  /** The overflow tests of the source reject exactly the sums that do not fit in 64 bits. */
  lemma OverflowExactly(value: nat, digit: nat, weight: nat)
    requires value < U64 && weight > 0
    ensures (U64 - 1) / weight < digit || U64 - 1 - value < digit * weight <==> value + digit * weight >= U64
  {
    var q := (U64 - 1) / weight;
    var r := (U64 - 1) % weight;
    assert U64 - 1 == q * weight + r;
    if q < digit {
      Scale(q, digit, weight);
      assert weight * digit == digit * weight;
    }
  }

  /** Reads the next 11 characters from the last to the first. */
  method ReadGroup(s: string) returns (result: Option<nat>)
    ensures result == Value(s)
  {
    hide ToVal, Number, Power, Places;
    var value, multiplier := 0, 0;
    var j := 10;
    assert Readable(s, 11);
    NoPlaces(s);
    while j >= 0
      invariant -1 <= j <= 10 && Readable(s, j + 1)
      invariant value == Number(Places(s, j + 1), 57) < U64
      invariant multiplier == if j == 10 then 0 else Power(57, 9 - j)
    {
      NextWeight(j);
      if multiplier == 0 {
        multiplier := 1;
      } else {
        multiplier := multiplier * 57;
      }
      if j < |s| {
        var res := ToVal(s[j]);
        if res.None? {
          assert DigitAt(s, j).None?;
          return None;
        }
        OverflowExactly(value, res.value, multiplier);
        assert Readable(s, j);
        PlacesFirst(s, j);
        if (U64 - 1) / multiplier < res.value {
          TooLarge(s, j);
          return None;
        }
        var addend := res.value * multiplier;
        if U64 - 1 - value < addend {
          TooLarge(s, j);
          return None;
        }
        value := value + addend;
      } else {
        assert Readable(s, j);
        PlacesFirst(s, j);
      }
      j := j - 1;
    }
    return Some(value);
  }

  lemma NoPlaces(s: string)
    ensures Number(Places(s, 11), 57) == 0
  {
  }

  lemma NextWeight(j: int)
    requires 0 <= j <= 10
    ensures Power(57, 10 - j) == if j == 10 then 1 else Power(57, 9 - j) * 57
  {
  }

  lemma TooLarge(s: string, n: nat)
    requires n <= 11 && Readable(s, n) && Number(Places(s, n), 57) >= U64
    ensures Value(s).None?
  {
    if Readable(s, 0) {
      PlacesGrow(s, n);
    }
  }

  /** The bytes a text of n characters decodes to. */
  function DecodedSize(n: nat): nat {
    n / 11 * 8 + if n % 11 != 0 then 8 else 0
  }

  lemma OneGroupLess(n: nat)
    requires n > 0
    ensures DecodedSize(n) == 8 + DecodedSize(n - Min(11, n))
  {
  }

  lemma AfterTwice(a: seq<nat>, b: seq<nat>, rest: Option<seq<nat>>)
    ensures After(a, After(b, rest)) == After(a + b, rest)
  {
    if rest.Some? {
      assert a + (b + rest.value) == (a + b) + rest.value;
    }
  }

  /** Turns a text back into bytes; the result is empty when the text is not valid. */
  method FromString(s: string) returns (bytes: seq<nat>)
    ensures bytes == if Decode(s).Some? then Decode(s).value else []
  {
    hide Value, Digits, Decode, After, DecodedSize;
    var size := DecodedSize(|s|);
    var memory := new nat[size];
    var i, p := 0, 0;
    assert s[0..] == s && memory[..0] == [];
    AfterNothing(Decode(s));
    while i < size
      invariant 0 <= i <= size && 0 <= p
      invariant size - i == DecodedSize(|s| - Min(p, |s|))
      invariant Decode(s) == After(memory[..i], Decode(s[Min(p, |s|)..]))
    {
      NoneLeft(|s| - Min(p, |s|));
      OneGroupLess(|s| - p);
      var rest := s[p..];
      var value := ReadGroup(rest);
      DecodeOnce(memory[..i], rest);
      if value.None? {
        return [];
      }
      var ds := Digits(value.value, 8, 256);
      ghost var before := memory[..i];
      forall k | 0 <= k < 8 {
        memory[i + k] := ds[k];
      }
      assert memory[..i + 8] == before + ds;
      assert rest[Min(11, |rest|)..] == s[Min(p + 11, |s|)..];
      i, p := i + 8, p + 11;
    }
    NoneLeft(|s| - Min(p, |s|));
    AllDone(memory[..size], s[Min(p, |s|)..]);
    assert memory[..size] == memory[..];
    bytes := memory[..];
  }

  lemma NoneLeft(n: nat)
    ensures DecodedSize(n) == 0 <==> n == 0
  {
  }

  lemma AfterNothing(rest: Option<seq<nat>>)
    ensures After([], rest) == rest
  {
    assert rest.Some? ==> [] + rest.value == rest.value;
  }

  lemma AllDone(bytes: seq<nat>, rest: string)
    requires rest == ""
    ensures After(bytes, Decode(rest)) == Some(bytes)
  {
    assert bytes + [] == bytes;
  }

  /** One group of the decoding, after the bytes before it. */
  lemma DecodeOnce(before: seq<nat>, rest: string)
    requires |rest| > 0
    ensures After(before, Decode(rest))
         == if Value(rest).None? then None
            else After(before + Digits(Value(rest).value, 8, 256), Decode(rest[Min(11, |rest|)..]))
  {
    hide Value, Digits;
    if Value(rest).Some? {
      AfterTwice(before, Digits(Value(rest).value, 8, 256), Decode(rest[Min(11, |rest|)..]));
    }
  }
}
