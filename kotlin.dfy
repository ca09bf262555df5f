/** The parts of the Kotlin and Java runtime that the buttons core relies on:
    kotlin.Result with a tag for the caught exception, nullable values,
    identifiers and timestamps, String.isBlank, and the wrap-around of the
    32-bit Int and 64-bit Long types. */
module Kotlin {

  /** java.util.UUID; only equality between identifiers matters to the core. */
  type Uuid = nat

  /** java.time.LocalDateTime; the core only copies and compares timestamps. */
  type Timestamp = int

  /** A Kotlin nullable value `T?`. */
  datatype Option<+T> = None | Some(value: T)

  /** The exception carried by a failed kotlin.Result: an IllegalArgumentException
      (thrown by `require` and by the duplicate-name rule) or anything else. */
  datatype ErrorKind = IllegalArgument | Unexpected

  /** kotlin.Result<T>. */
  datatype Result<+T> = Success(value: T) | Failure(error: ErrorKind)

  /** Char.isWhitespace: the Java whitespace characters together with the
      Unicode space separators. */
  predicate IsWhitespace(c: char)
    ensures IsWhitespace(c) ==> !('0' <= c <= '9' || 'A' <= c <= 'Z' || 'a' <= c <= 'z')
  {
    || c == ' '
    || '\t' <= c <= '\r'
    || '\U{1C}' <= c <= '\U{1F}'
    || c == '\U{A0}'
    || c == '\U{1680}'
    || '\U{2000}' <= c <= '\U{200A}'
    || c == '\U{2028}'
    || c == '\U{2029}'
    || c == '\U{202F}'
    || c == '\U{205F}'
    || c == '\U{3000}'
  }

  /** CharSequence.isBlank: empty, or whitespace only. A string with a
      letter or a digit in it is never blank. */
  predicate IsBlank(s: string)
    ensures |s| == 0 ==> IsBlank(s)
    ensures (exists i :: 0 <= i < |s| && ('0' <= s[i] <= '9' || 'A' <= s[i] <= 'Z' || 'a' <= s[i] <= 'z')) ==> !IsBlank(s)
  {
    forall i :: 0 <= i < |s| ==> IsWhitespace(s[i])
  }

  const IntMin: int := -0x8000_0000
  const IntMax: int := 0x7FFF_FFFF
  const LongMin: int := -0x8000_0000_0000_0000
  const LongMax: int := 0x7FFF_FFFF_FFFF_FFFF

  /** kotlin.Int */
  type Int32 = x: int | IntMin <= x <= IntMax
  /** kotlin.Long */
  type Int64 = x: int | LongMin <= x <= LongMax

  /** Long.toInt(), and the result of an Int operation that overflows:
      the low 32 bits, read as a two's-complement number. */
  function WrapInt(x: int): (r: Int32)
    ensures (r - x) % 0x1_0000_0000 == 0
    ensures IntMin <= x <= IntMax ==> r == x
  {
    (x - IntMin) % 0x1_0000_0000 + IntMin
  }

  /** The result of a Long operation that overflows: the low 64 bits. */
  function WrapLong(x: int): (r: Int64)
    ensures (r - x) % 0x1_0000_0000_0000_0000 == 0
    ensures LongMin <= x <= LongMax ==> r == x
  {
    (x - LongMin) % 0x1_0000_0000_0000_0000 + LongMin
  }

  function Abs(x: int): nat {
    if x < 0 then -x else x
  }

  /** Kotlin's integer `/`, which rounds toward zero (Dafny's `/` is Euclidean):
      the remainder takes the sign of the dividend and is smaller than the divisor.
      It differs from the Euclidean quotient only for a negative dividend that
      the divisor does not divide. */
  function TruncDiv(a: int, b: int): (q: int)
    requires b != 0
    ensures Abs(a - q * b) < Abs(b)
    ensures a >= 0 ==> a - q * b >= 0
    ensures a <= 0 ==> a - q * b <= 0
  {
    var d := a / b;
    var m := a % b;
    assert a - d * b == m && 0 <= m < Abs(b);
    if a >= 0 || m == 0 then d
    else
      var s := if b > 0 then 1 else -1;
      assert (d + s) * b == d * b + s * b;
      d + s
  }
}
