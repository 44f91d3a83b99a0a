/** Hexadecimal digits. */
module Hex {
  import opened Units

  predicate IsHex(c: char) {
    '0' <= c <= '9' || 'a' <= c <= 'f' || 'A' <= c <= 'F'
  }

  function HexValue(c: char): (n: nat)
    requires IsHex(c)
    ensures n < 16
  {
    if c <= '9' then c as int - '0' as int
    else if c >= 'a' then c as int - 'a' as int + 10
    else c as int - 'A' as int + 10
  }

  function LowerHex(n: nat): Char8
    requires n < 16
  {
    "0123456789abcdef"[n]
  }

  function UpperHex(n: nat): Char8
    requires n < 16
  {
    "0123456789ABCDEF"[n]
  }

  lemma HexBack(n: nat)
    requires n < 16
    ensures IsHex(LowerHex(n)) && HexValue(LowerHex(n)) == n
    ensures IsHex(UpperHex(n)) && HexValue(UpperHex(n)) == n
  {
  }
}
