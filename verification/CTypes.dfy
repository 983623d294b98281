/** C's `int` and `unsigned char`, strings closed by a NUL, and a value that may be absent. */
module CTypes {

  /** A byte of text, promoted to `int` as every mask in the source promotes it. */
  type Byte = b: int | 0 <= b <= 0xff

  const INT_MAX: int := 0x7fff_ffff
  const INT_MIN: int := -0x8000_0000

  predicate IsInt(v: int) {
    INT_MIN <= v <= INT_MAX
  }

  /** The string that starts at a position of a buffer. */
  ghost predicate IsCString<T>(buffer: seq<T>, at: int, s: seq<T>, nul: T) {
    && 0 <= at && at + |s| < |buffer|
    && buffer[at..at + |s|] == s
    && nul !in s
    && buffer[at + |s|] == nul
  }

  datatype Option<+T> = None | Some(value: T)
}
