/** The shape shared by the three parsers: `for line in f:` threading a state
    through the lines in file order, stopping at the first exception. */
module LineFold {
  import opened Results

  /** Runs `step` over `lines` from state `st`; `index` is the position of
      `lines[0]` in the file, handed to `step` for error reports. */
  function Fold<S>(step: (S, string, nat) -> Result<S>, st: S, lines: seq<string>, index: nat): Result<S>
    decreases |lines|
  {
    if |lines| == 0 then Ok(st)
    else
      match step(st, lines[0], index)
      case Err(e) => Err(e)
      case Ok(next) => Fold(step, next, lines[1..], index + 1)
  }

  /** Feeds one more line to an outcome, unless it is already an error. */
  function Then<S>(step: (S, string, nat) -> Result<S>, r: Result<S>, line: string, index: nat): Result<S> {
    match r
    case Err(e) => Err(e)
    case Ok(st) => step(st, line, index)
  }

  /** Folding over one more line is one more step after the fold of the
      lines before it; this lets a parser be reasoned about prefix by prefix. */
  lemma {:induction false} FoldSnoc<S>(step: (S, string, nat) -> Result<S>, st: S, lines: seq<string>, line: string, index: nat)
    ensures Fold(step, st, lines + [line], index) == Then(step, Fold(step, st, lines, index), line, index + |lines|)
    decreases |lines|
  {
    if |lines| > 0 {
      assert (lines + [line])[0] == lines[0];
      assert (lines + [line])[1..] == lines[1..] + [line];
      match step(st, lines[0], index)
      case Err(e) =>
      case Ok(next) =>
        FoldSnoc(step, next, lines[1..], line, index + 1);
    } else {
      assert [line][1..] == [];
    }
  }

  /** `FoldSnoc` for a whole file: the fold over a non-empty file is one more
      step after the fold over all but its last line. */
  lemma {:induction false} FoldLast<S>(step: (S, string, nat) -> Result<S>, st: S, lines: seq<string>)
    requires |lines| > 0
    ensures Fold(step, st, lines, 0) == Then(step, Fold(step, st, lines[..|lines| - 1], 0), lines[|lines| - 1], |lines| - 1)
  {
    assert lines[..|lines| - 1] + [lines[|lines| - 1]] == lines;
    FoldSnoc(step, st, lines[..|lines| - 1], lines[|lines| - 1], 0);
  }

  /** A first line that steps to `next` hands the rest of the file to `next`. */
  lemma {:induction false} FoldOk<S>(step: (S, string, nat) -> Result<S>, st: S, line: string, rest: seq<string>, index: nat, next: S)
    requires step(st, line, index) == Ok(next)
    ensures Fold(step, st, [line] + rest, index) == Fold(step, next, rest, index + 1)
  {
    assert ([line] + rest)[0] == line;
    assert ([line] + rest)[1..] == rest;
  }
}
