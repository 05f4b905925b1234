/** Byte strings, the result type shared by the whole model, and the errors of
    package `resp` (resp/resp.go). */
module Bytes {

  type byte = x: int | 0 <= x < 256
  type bytes = seq<byte>

  const LF: byte := 10
  const CR: byte := 13
  const SPACE: byte := 32
  const QUOTE: byte := 34
  const DOLLAR: byte := 36
  const APOS: byte := 39
  const STAR: byte := 42
  const PLUS: byte := 43
  const MINUS: byte := 45
  const COLON: byte := 58
  const BACKSLASH: byte := 92

  const CRLF: bytes := [CR, LF]

  /** The `asciiSpace` table: TAB, LF, VT, FF, CR and space. */
  predicate IsSpace(c: byte) {
    9 <= c <= 13 || c == 32
  }

  datatype Option<+T> = None | Some(value: T)

  /** How a byte source stops: the end of its input, or any other I/O error. */
  datatype SourceError = EOF | UnexpectedEOF | Failed(text: bytes)

  /** The protocol errors of resp/resp.go. */
  datatype ProtocolError =
    | InvalidMultiBulkLength
    | InvalidBulkLength
    | Expected(prefix: byte, got: Option<byte>)
    | NotANumber
    | NotANil

  /** Every way an operation can fail.
      `TooLong` is the Go error errInlineRequestTooLong, kept apart from the other
      protocol errors because it speaks about delivery and not about content.
      The last three are not Go errors. They mark the points at which the Go code
      leaves the region it is meant to work in, and the model stops there:
      `Torn`, a line whose CR is the last buffered byte (the code slices one byte
      past the window); `Overflow`, a size whose arithmetic leaves int64;
      `Split`, a bulk read entered with one trailer byte left (the code returns a
      negative count). */
  datatype Error =
    | Protocol(p: ProtocolError)
    | IO(s: SourceError)
    | NoMoreArgs
    | Unexpected
    | ServerError(text: bytes)
    | Conversion
    | TooLong
    | Torn
    | Overflow
    | Split
  {
    /** The failures that depend on how the bytes were cut into reads and not on the bytes. */
    predicate Delivery() { TooLong? || Torn? || Split? }
  }

  datatype Result<+T> = Ok(value: T) | Err(error: Error)

  /** The result is a failure of delivery. */
  predicate Lost<T>(res: Result<T>) { res.Err? && res.error.Delivery() }

  predicate LostBy(err: Option<Error>) { err.Some? && err.value.Delivery() }

  function Flatten(chunks: seq<bytes>): (s: bytes)
  {
    if chunks == [] then [] else chunks[0] + Flatten(chunks[1..])
  }
}
