/** Unsigned integers of a fixed number of digits, as their bits, lowest first. */
module Bits {

  type Word = seq<bool>

  function Zero(n: nat): Word {
    seq(n, i => false)
  }

  function Xor(a: Word, b: Word): (r: Word)
    requires |a| == |b|
    ensures |r| == |a|
  {
    seq(|a|, i requires 0 <= i < |a| => a[i] != b[i])
  }

  /** v << k, truncated to the digits of v. */
  function Shl(v: Word, k: nat): (r: Word)
    ensures |r| == |v|
  {
    seq(|v|, i requires 0 <= i < |v| => i >= k && v[i - k])
  }

  /** v >> k */
  function Shr(v: Word, k: nat): (r: Word)
    ensures |r| == |v|
  {
    seq(|v|, i requires 0 <= i < |v| => i + k < |v| && v[i + k])
  }

  /** v masked to its k lowest bits. */
  function Low(v: Word, k: nat): (r: Word)
    ensures |r| == |v|
  {
    seq(|v|, i requires 0 <= i < |v| => i < k && v[i])
  }

  /** v converted to n digits. */
  function Extend(v: Word, n: nat): (r: Word)
    ensures |r| == n
  {
    seq(n, i requires 0 <= i < n => i < |v| && v[i])
  }

  /** The k lowest bits in reverse order, nothing above. */
  function Mirror(v: Word, k: nat): (r: Word)
    requires k <= |v|
    ensures |r| == |v|
  {
    seq(|v|, i requires 0 <= i < |v| => i < k && v[k - 1 - i])
  }

  // -- Bytes --------------------------------------------------------------------------

  type Byte = x: nat | x < 0x100

  function ToBits(x: nat, n: nat): (r: Word)
    ensures |r| == n
  {
    if n == 0 then [] else [x % 2 == 1] + ToBits(x / 2, n - 1)
  }

  function ToNat(v: Word): nat {
    if v == [] then 0 else (if v[0] then 1 else 0) + 2 * ToNat(v[1..])
  }

  function Power2(n: nat): nat {
    if n == 0 then 1 else 2 * Power2(n - 1)
  }

  lemma {:induction false} ToNatToBits(v: Word)
    ensures ToNat(v) < Power2(|v|) && ToBits(ToNat(v), |v|) == v
  {
    if v != [] {
      ToNatToBits(v[1..]);
      assert ToNat(v) / 2 == ToNat(v[1..]);
    }
  }

  function ByteBits(b: Byte): (r: Word)
    ensures |r| == 8
  {
    ToBits(b, 8)
  }

  /** static_cast<unsigned char>: the eight lowest bits as an index. */
  function LowByte(v: Word): (b: Byte)
    requires |v| >= 8
    ensures ByteBits(b) == v[..8]
  {
    ToNatToBits(v[..8]);
    assert Power2(8) == 0x100;
    ToNat(v[..8])
  }
}
