/** Integer division and narrowing as C++ does them. */
module Truncation {

  /** C++ division: towards zero. */
  function Quot(a: int, b: int): int
    requires b > 0
  {
    if a >= 0 then a / b else -(-a / b)
  }

  /** C++ remainder: with the sign of the dividend. */
  function Rem(a: int, b: int): int
    requires b > 0
  {
    a - b * Quot(a, b)
  }

  lemma QuotNat(a: nat, b: nat)
    requires b > 0
    ensures Quot(a, b) == a / b >= 0
  {
  }

  /** A length of type size_t cast to a 32-bit int. */
  function ToInt(len: nat): int {
    var low := len % 0x1_0000_0000;
    if low < 0x8000_0000 then low else low - 0x1_0000_0000
  }
}
