/**
 Types shared by every module of the model.
 */
module Common {

  datatype Option<+T> = None | Some(value: T)

  datatype Result<+T> = Success(value: T) | Failure(error: Error)

  /** The ways a command is refused; a refused command's transaction is rolled back. */
  datatype Error =
    | ValueError           // a guard of the command itself
    | MissingRow           // the row the command names does not exist
    | IntegrityError       // a unique index or foreign key of the database
    | ConcurrentAppend     // five sequence slots in a row were lost to rivals

  /** Primary keys. They are opaque; the only structure used is the total order ORDER BY relies on. */
  type Id = nat

  /** Timestamps, as integers on one clock. */
  type Time = int

  /** The fields from which an idempotency key's text is formatted. */
  type Key = seq<int>

  function Max(a: int, b: int): int {
    if a < b then b else a
  }

  function Min(a: int, b: int): int {
    if a < b then a else b
  }

  /** The ASCII characters that Python's str.strip() removes. */
  predicate IsSpace(c: char) {
    9 <= c as int <= 13 || 28 <= c as int <= 32
  }

  /** The ten of them, by name or code point. */
  lemma SpaceIff(c: char)
    ensures IsSpace(c) <==> c in ['\t', '\n', '\U{0B}', '\U{0C}', '\r', '\U{1C}', '\U{1D}', '\U{1E}', '\U{1F}', ' ']
  {
  }

  /** Some character of the text is not white space. */
  ghost predicate HasText(text: string) {
    exists i :: 0 <= i < |text| && !IsSpace(text[i])
  }
}
