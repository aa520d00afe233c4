/** Unsigned 32-bit words: the sums and differences wrap around. */
module Word32 {
  const WRAP: nat := 0x1_0000_0000

  type Word = x: nat | x < WRAP

  function Add(a: Word, b: Word): Word {
    if a + b < WRAP then a + b else a + b - WRAP
  }

  function Sub(a: Word, b: Word): Word {
    if b <= a then a - b else a + WRAP - b
  }
}
