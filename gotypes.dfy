/** Go's basic value shapes as the rest of the model sees them.

    Go strings are byte strings. A byte is modelled as a character with a
    code below 256, so that the Go source's string literals ("OK", "SET",
    "\r\n") read as Dafny string literals. */
module GoTypes {

  type Byte = c: char | c as int < 256

  type Bytes = seq<Byte>

  const CR: Byte := '\r'
  const LF: Byte := '\n'
  const CRLF: Bytes := "\r\n"

  /** Bounds of Go's int on a 64-bit platform (and of int64). */
  const MinInt64: int := -0x8000_0000_0000_0000
  const MaxInt64: int := 0x7FFF_FFFF_FFFF_FFFF

  predicate IsInt64(n: int) {
    MinInt64 <= n <= MaxInt64
  }

  datatype Option<+T> = None | Some(value: T)
}
