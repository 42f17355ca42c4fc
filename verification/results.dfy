/** Outcomes of the converter's parsers.

    The converter never catches an exception: the first malformed line aborts the
    whole run. Each Python exception that can escape a parser is one constructor
    of `ParseError`; the line numbers are 0-based indices into the line sequence
    handed to the parser.
 */
module Results {

  datatype ParseError =
    | /** `IndexError`: the line has no token at position `field`. */
      MissingField(line: nat, field: nat)
    | /** `ValueError`: `int()` rejected `token`. */
      BadInteger(line: nat, token: string)
    | /** `NameError`: an `o` line came before any `P` line, so no path id is bound. */
      OffsetsBeforePath(line: nat)
    | /** `StopIteration`: the sequence table is empty, so there is no submer size. */
      EmptySequenceTable

  /** Either a value or the error that aborted the run; usable with `:-`. */
  datatype Result<+T> = Ok(value: T) | Err(error: ParseError) {

    predicate IsFailure() {
      Err?
    }

    function PropagateFailure<U>(): Result<U>
      requires Err?
    {
      Err(error)
    }

    function Extract(): T
      requires Ok?
    {
      value
    }
  }

  datatype Option<+T> = None | Some(value: T)
}
