/** utils::align on 64-bit values: a mask that rounds up to a power of two. */
module Align {
  import opened Arithmetic

  const WRAP: nat := 0x1_0000_0000_0000_0000

  type U64 = x: nat | x < WRAP

  predicate PowerOfTwo(a: nat) {
    a == 1 || (a > 1 && a % 2 == 0 && PowerOfTwo(a / 2))
  }

  /** Bitwise and. */
  function And(x: nat, y: nat): nat {
    if x == 0 then 0 else (if x % 2 == 1 && y % 2 == 1 then 1 else 0) + 2 * And(x / 2, y / 2)
  }

  /** What (value + (align - 1)) & (0 - align) gives, by MaskIsAlignUp: the sum wraps, then is rounded down. */
  function AlignUp(x: U64, a: U64): (r: U64)
    requires a > 0
  {
    var y := Wrapped(x, a);
    y - y % a
  }

  function Wrapped(x: U64, a: U64): U64
    requires a > 0
  {
    if x + a - 1 < WRAP then x + a - 1 else x + a - 1 - WRAP
  }

  // -- The mask clears the remainder --------------------------------------------------

  lemma DoubleRemainder(y: nat, m: nat)
    requires m > 0
    ensures y % (2 * m) == y % 2 + 2 * (y / 2 % m)
  {
    var h := y / 2;
    var q, r := h / m, h % m;
    assert 2 * m * q == 2 * (m * q);
    Divided(2 * m, y, q, y % 2 + 2 * r);
  }

  lemma {:induction false} AllOnes(y: nat, full: nat)
    requires PowerOfTwo(full) && y < full
    ensures And(y, full - 1) == y
  {
    if y > 0 {
      AllOnes(y / 2, full / 2);
      assert (full - 1) / 2 == full / 2 - 1;
    }
  }

  lemma AndEven(y: nat, m: nat)
    ensures And(y, 2 * m) == 2 * And(y / 2, m)
  {
  }

  lemma {:induction false} MaskedBelow(y: nat, full: nat, a: nat)
    requires PowerOfTwo(full) && PowerOfTwo(a) && a <= full && y < full
    ensures And(y, full - a) == y - y % a
  {
    if a == 1 {
      AllOnes(y, full);
    } else {
      var h, m := full / 2, a / 2;
      hide And;
      MaskedBelow(y / 2, h, m);
      assert full - a == 2 * (h - m);
      AndEven(y, h - m);
      DoubleRemainder(y, m);
    }
  }

  lemma {:induction false} Product(a: nat, b: nat)
    requires PowerOfTwo(a) && PowerOfTwo(b)
    ensures PowerOfTwo(a * b)
  {
    if a > 1 {
      var h := a / 2;
      Product(h, b);
      Positive(b);
      assert a * b == 2 * (h * b);
    }
  }

  lemma Powers()
    ensures PowerOfTwo(WRAP) && PowerOfTwo(0x8_0000) && PowerOfTwo(0x20_0000) && PowerOfTwo(0x1000_0000)
  {
    assert PowerOfTwo(0x10) && PowerOfTwo(8) && PowerOfTwo(2);
    Product(0x10, 0x10);
    Product(0x100, 0x100);
    Product(0x1_0000, 8);
    Product(0x1_0000, 0x10);
    Product(0x10_0000, 2);
    Product(0x10_0000, 0x100);
    Product(0x1_0000, 0x1_0000);
    Product(0x1_0000_0000, 0x1_0000_0000);
  }

  /** On a power of two the masked sum of the source is AlignUp. */
  lemma MaskIsAlignUp(x: U64, a: U64)
    requires PowerOfTwo(a)
    ensures a > 0 && And(Wrapped(x, a), WRAP - a) == AlignUp(x, a)
  {
    hide And, PowerOfTwo;
    Positive(a);
    Powers();
    MaskedBelow(Wrapped(x, a), WRAP, a);
  }

  lemma Positive(a: nat)
    requires PowerOfTwo(a)
    ensures a > 0
  {
  }

  // -- What it means ------------------------------------------------------------------

  lemma Multiple(a: nat, q: int)
    requires a > 0
    ensures a * q % a == 0
  {
    Divided(a, a * q, q, 0);
  }

  /** Without wrapping, the result is the least multiple from x on. */
  lemma AlignUpSpec(x: U64, a: U64)
    requires a > 0 && x + a - 1 < WRAP
    ensures x <= AlignUp(x, a) < x + a && AlignUp(x, a) % a == 0
  {
    var y := x + a - 1;
    var q, r := y / a, y % a;
    assert y - r == a * q;
    Multiple(a, q);
  }

  /** When the sum wraps, the result is 0. */
  lemma AlignUpWrapped(x: U64, a: U64)
    requires a > 0 && x + a - 1 >= WRAP
    ensures AlignUp(x, a) == 0
  {
    var y := x + a - 1 - WRAP;
    Divided(a, y, 0, y);
  }

  /** A multiple is left alone. */
  lemma AlignUpFixed(x: U64, a: U64)
    requires a > 0 && x + a - 1 < WRAP && x % a == 0
    ensures AlignUp(x, a) == x
  {
    AlignUpSpec(x, a);
    Gap(a, x, AlignUp(x, a));
  }

  /** Two multiples less than a apart are equal. */
  lemma Gap(a: nat, x: nat, y: nat)
    requires a > 0 && x % a == 0 && y % a == 0 && x <= y < x + a
    ensures x == y
  {
    var p, q := x / a, y / a;
    NextMultiple(a, p, q);
    NextMultiple(a, q, p);
  }

  /** Rounding up keeps the order. */
  lemma AlignUpMonotone(x: U64, y: U64, a: U64)
    requires a > 0 && x <= y && y + a - 1 < WRAP
    ensures AlignUp(x, a) <= AlignUp(y, a)
  {
    AlignUpSpec(x, a);
    AlignUpSpec(y, a);
    var r, s := AlignUp(x, a), AlignUp(y, a);
    if s < r {
      Gap(a, s, r);
    }
  }

  lemma SumMultiple(a: nat, x: nat, y: nat)
    requires a > 0 && x % a == 0 && y % a == 0
    ensures (x + y) % a == 0
  {
    var p, q := x / a, y / a;
    assert x + y == a * (p + q) by {
      assert a * (p + q) == a * p + a * q;
    }
    Multiple(a, p + q);
  }

  /** Rounding a distance from a multiple is rounding its end. */
  lemma AlignUpFrom(p: nat, x: U64, a: U64)
    requires a > 0 && p % a == 0 && p <= x && x + a - 1 < WRAP
    ensures AlignUp(x - p, a) + p == AlignUp(x, a)
  {
    hide AlignUp;
    AlignUpSpec(x - p, a);
    AlignUpSpec(x, a);
    var s, t := AlignUp(x - p, a) + p, AlignUp(x, a);
    SumMultiple(a, AlignUp(x - p, a), p);
    if s <= t {
      Gap(a, s, t);
    } else {
      Gap(a, t, s);
    }
  }

  lemma Quotient(a: nat, n: nat, q: nat)
    requires a > 0 && a * q <= n < a * q + a
    ensures n / a == q
  {
    Divided(a, n, q, n - a * q);
  }

  lemma Ascending(a: nat, x: nat, y: nat)
    requires a > 0 && x <= y
    ensures x / a <= y / a
  {
    NextMultiple(a, y / a, x / a);
  }

  lemma FarQuotients(a: nat, x: nat, y: nat)
    requires a > 0 && x + a <= y
    ensures x / a < y / a
  {
    NextMultiple(a, y / a, x / a);
  }

  /** Whether x - 1 and y - 1 are in different units tells whether x rounded up is below y. */
  lemma Crosses(x: nat, y: nat, a: nat)
    requires 0 < a && x < y && y + a < WRAP
    ensures (y - 1) / a != (if x == 0 then WRAP - 1 else x - 1) / a <==> AlignUp(x, a) < y
  {
    hide PowerOfTwo, And, AlignUp;
    if x == 0 {
      AlignUpFixed(0, a);
      FarQuotients(a, y - 1, WRAP - 1);
    } else {
      AlignUpSpec(x, a);
      UnitBelow(a, AlignUp(x, a), x - 1);
      if y <= AlignUp(x, a) {
        UnitBelow(a, AlignUp(x, a), y - 1);
      } else {
        Ascending(a, AlignUp(x, a), y - 1);
      }
    }
  }

  lemma UnitBelow(a: nat, p: nat, n: nat)
    requires a > 0 && p % a == 0 && p - a <= n < p
    ensures n / a == p / a - 1
  {
    var q := p / a;
    assert a * (q - 1) == p - a by {
      assert a * (q - 1) == a * q - a;
    }
    assert q == 0 ==> p == 0;
    Quotient(a, n, q - 1);
  }

  /** The only power of two from b to just below its double is b. */
  lemma {:induction false} PowersApart(a: nat, b: nat)
    requires PowerOfTwo(a) && PowerOfTwo(b) && b <= a < 2 * b
    ensures a == b
  {
    if b > 1 {
      PowersApart(a / 2, b / 2);
    }
  }

  /** A power of two divides every larger one. */
  lemma {:induction false} PowersDivide(a: nat, b: nat)
    requires PowerOfTwo(a) && PowerOfTwo(b) && a <= b
    ensures a > 0 && b % a == 0
  {
    Positive(a);
    if a > 1 {
      PowersDivide(a / 2, b / 2);
      DoubleRemainder(b, a / 2);
    }
  }
}
