/** The machine numbers and characters that several components share. */
module Units {

  type Byte = n: nat | n < 256

  // A character that stands for a byte.
  type Char8 = c: char | c as int < 256 witness 'a'

  type Uint32 = n: nat | n < 0x1_0000_0000
}
