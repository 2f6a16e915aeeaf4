/** Bytes as integers and runs of ASCII characters, shared by the encodings. */
module Bytes {
  type Byte = b: int | 0 <= b < 256

  /** So many characters from the first one on. */
  function Chars(first: char, n: nat): string
    requires first as int + n <= 128
  {
    seq(n, i requires 0 <= i < n => (first as int + i) as char)
  }
}
