/** Value types shared by the developer-comment pipeline and the checkable chunk:
    an optional value, a result, and the crate's `Range`, `Position` and `Span`. */
module Basics {

  datatype Option<T> = None | Some(value: T)

  datatype Result<T, E> = Ok(value: T) | Err(error: E)

  /** A half-open byte range `start..end` into a chunk's rendered content. */
  datatype Range = Range(start: nat, end: nat) {
    /** `Range::contains`: `start <= x < end`. */
    predicate Contains(x: nat) {
      start <= x < end
    }
  }

  /** A 1-indexed line and a 0-indexed column counted in Unicode scalars.
      The column is an `int` so that spans computed by unchecked arithmetic
      stay representable; every column the pipeline produces is non-negative. */
  datatype Position = Position(line: nat, column: int)

  /** A source span; `end` is inclusive of the last covered scalar. */
  datatype Span = Span(start: Position, end: Position)
}
