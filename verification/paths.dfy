/** `parse_paths`: the traversal record file read into GFA paths.

    A `P` line opens the next path (ids 1, 2, 3, ...) and empties the node
    buffer; a `z` line fills the buffer with its node tokens rewritten from
    signed (`-7`, `7`) to suffix (`7-`, `7+`) notation; an `o` line commits a
    record made of the open path's id, the buffer, and its own offset tokens.
 */
module Paths {
  import opened Results
  import opened Text
  import LineFold

  datatype PathRecord = PathRecord(id: nat, sequence: seq<string>, offsets: seq<string>)

  datatype LineKind = PathOpenLine | NodesLine | OffsetsLine | OtherLine

  /** The prefix tests of the parser, first match wins. */
  function Classify(line: string): LineKind {
    if StartsWith(line, 'P') then PathOpenLine
    else if StartsWith(line, 'z') then NodesLine
    else if StartsWith(line, 'o') then OffsetsLine
    else OtherLine
  }

  /** `parts[2:]`: the tokens after the tag and the unused second field. */
  function Payload(line: string): seq<string> {
    var parts := Split(line);
    if |parts| <= 2 then [] else parts[2..]
  }

  /** One node token from signed to suffix notation: `-7` to `7-`, `7` to `7+`. */
  function Orient(token: string): (r: string)
    ensures |r| > 0
    ensures r[|r| - 1] == '-' <==> StartsWith(token, '-')
    ensures r[|r| - 1] == '+' <==> !StartsWith(token, '-')
  {
    if StartsWith(token, '-') then token[1..] + "-" else token + "+"
  }

  /** Suffix notation back to signed notation. */
  function Unorient(ref: string): string {
    if |ref| > 0 && ref[|ref| - 1] == '-' then "-" + ref[..|ref| - 1]
    else if |ref| > 0 && ref[|ref| - 1] == '+' then ref[..|ref| - 1]
    else ref
  }

  /** The rewrite loses nothing: every token can be recovered from its
      rewritten form, so distinct tokens stay distinct. */
  lemma {:induction false} UnorientOrient(token: string)
    ensures Unorient(Orient(token)) == token
  {
    var r := Orient(token);
    if StartsWith(token, '-') {
      assert r[..|r| - 1] == token[1..];
      assert "-" + token[1..] == token;
    } else {
      assert r[..|r| - 1] == token;
    }
  }

  /** The `z` line's list comprehension: one rewritten token per token, in order. */
  function OrientAll(tokens: seq<string>): (r: seq<string>)
    ensures |r| == |tokens|
    ensures forall i :: 0 <= i < |r| ==> Unorient(r[i]) == tokens[i]
    ensures forall i :: 0 <= i < |r| ==>
      |r[i]| > 0 &&
      (r[i][|r[i]| - 1] == '-' <==> StartsWith(tokens[i], '-')) &&
      (r[i][|r[i]| - 1] == '+' <==> !StartsWith(tokens[i], '-'))
  {
    var r := seq(|tokens|, (i: nat) requires i < |tokens| => Orient(tokens[i]));
    assert forall i :: 0 <= i < |r| ==> Unorient(r[i]) == tokens[i] by {
      forall i | 0 <= i < |r| ensures Unorient(r[i]) == tokens[i] {
        UnorientOrient(tokens[i]);
      }
    }
    assert forall i :: 0 <= i < |r| ==> r[i] == Orient(tokens[i]);
    r
  }

  /** `current_path` is the number of `P` lines read; `buffer` is `path_sequence`. */
  datatype PathState = PathState(counter: nat, buffer: seq<string>, paths: seq<PathRecord>)

  const Start := PathState(0, [], [])

  /** One iteration of the loop over the file's lines. An `o` line before any
      `P` line fails because `path_id` is not yet bound. */
  function Step(st: PathState, line: string, index: nat): Result<PathState> {
    match Classify(line)
    case PathOpenLine => Ok(st.(counter := st.counter + 1, buffer := []))
    case NodesLine => Ok(st.(buffer := OrientAll(Payload(line))))
    case OffsetsLine =>
      if st.counter == 0 then Err(OffsetsBeforePath(index))
      else Ok(st.(paths := st.paths + [PathRecord(st.counter, st.buffer, Payload(line))]))
    case OtherLine => Ok(st)
  }

  function StepFn(): (PathState, string, nat) -> Result<PathState> {
    (st: PathState, line: string, index: nat) => Step(st, line, index)
  }

  function Run(lines: seq<string>): Result<PathState> {
    LineFold.Fold(StepFn(), Start, lines, 0)
  }

  /** `parse_paths(file)` on the file's lines. */
  function ParsePaths(lines: seq<string>): Result<seq<PathRecord>> {
    match Run(lines)
    case Err(e) => Err(e)
    case Ok(st) => Ok(st.paths)
  }

  // ---------------------------------------------------------------------
  // What the parser promises, stated line by line over the file.

  /** Number of `P` lines. */
  function CountPaths(lines: seq<string>): nat {
    if |lines| == 0 then 0
    else CountPaths(lines[..|lines| - 1]) + (if Classify(lines[|lines| - 1]) == PathOpenLine then 1 else 0)
  }

  /** Number of `o` lines. */
  function CountOffsets(lines: seq<string>): nat {
    if |lines| == 0 then 0
    else CountOffsets(lines[..|lines| - 1]) + (if Classify(lines[|lines| - 1]) == OffsetsLine then 1 else 0)
  }

  /** The rewrite of the last `z` line since the most recent `P` line, or
      nothing when there is none. */
  function LastNodes(lines: seq<string>): seq<string> {
    if |lines| == 0 then []
    else
      var last := lines[|lines| - 1];
      match Classify(last)
      case PathOpenLine => []
      case NodesLine => OrientAll(Payload(last))
      case _ => LastNodes(lines[..|lines| - 1])
  }

  /** One record per `o` line, in file order: the number of `P` lines before
      it, the nodes of the last `z` line of that path, its own offsets. */
  function ExpectedPaths(lines: seq<string>): seq<PathRecord> {
    if |lines| == 0 then []
    else
      var before := lines[..|lines| - 1];
      var last := lines[|lines| - 1];
      if Classify(last) == OffsetsLine then
        ExpectedPaths(before) + [PathRecord(CountPaths(before), LastNodes(before), Payload(last))]
      else ExpectedPaths(before)
  }

  /** Every `o` line has some `P` line before it. */
  predicate NoEarlyOffsets(lines: seq<string>) {
    forall i :: 0 <= i < |lines| && Classify(lines[i]) == OffsetsLine ==> CountPaths(lines[..i]) > 0
  }

  /** Line `j` is an `o` line with no `P` line before it, and the first such line. */
  predicate FirstEarlyOffsetsAt(lines: seq<string>, j: nat) {
    && j < |lines|
    && Classify(lines[j]) == OffsetsLine
    && CountPaths(lines[..j]) == 0
    && NoEarlyOffsets(lines[..j])
  }

  lemma {:induction false} NoEarlyOffsetsSnoc(lines: seq<string>)
    requires |lines| > 0
    ensures NoEarlyOffsets(lines) <==>
              && NoEarlyOffsets(lines[..|lines| - 1])
              && (Classify(lines[|lines| - 1]) == OffsetsLine ==> CountPaths(lines[..|lines| - 1]) > 0)
  {
    var before := lines[..|lines| - 1];
    assert forall i :: 0 <= i < |before| ==> before[i] == lines[i] && before[..i] == lines[..i];
  }

  /** The loop invariant of `parse_paths`: after any prefix of the file the
      counter is the number of `P` lines, the buffer is the last `z` rewrite
      of the open path, and the records are one per `o` line; the run fails
      exactly when an `o` line comes before every `P` line, naming the first. */
  lemma {:induction false} RunMatchesExpected(lines: seq<string>)
    ensures Run(lines).Ok? <==> NoEarlyOffsets(lines)
    ensures Run(lines).Ok? ==>
              Run(lines).value == PathState(CountPaths(lines), LastNodes(lines), ExpectedPaths(lines))
    ensures Run(lines).Err? ==>
              exists j: nat :: FirstEarlyOffsetsAt(lines, j) && Run(lines).error == OffsetsBeforePath(j)
    decreases |lines|
  {
    if |lines| > 0 {
      var before := lines[..|lines| - 1];
      var last := lines[|lines| - 1];
      LineFold.FoldLast(StepFn(), Start, lines);
      RunMatchesExpected(before);
      NoEarlyOffsetsSnoc(lines);
      var r := Run(before);
      if r.Err? {
        var j: nat :| FirstEarlyOffsetsAt(before, j) && r.error == OffsetsBeforePath(j);
        FirstEarlyOffsetsKept(lines, j);
      } else if Classify(last) == OffsetsLine && r.value.counter == 0 {
        assert before == lines[..|before|];
      }
    }
  }

  lemma {:induction false} FirstEarlyOffsetsKept(lines: seq<string>, j: nat)
    requires |lines| > 0
    requires FirstEarlyOffsetsAt(lines[..|lines| - 1], j)
    ensures FirstEarlyOffsetsAt(lines, j)
  {
    assert lines[j] == lines[..|lines| - 1][j];
    assert lines[..j] == lines[..|lines| - 1][..j];
  }

  /** `parse_paths` in full: one record per `o` line, or the error of the
      first `o` line that precedes every `P` line. */
  lemma {:induction false} ParsePathsSpec(lines: seq<string>)
    ensures ParsePaths(lines).Ok? <==> NoEarlyOffsets(lines)
    ensures ParsePaths(lines).Ok? ==> ParsePaths(lines).value == ExpectedPaths(lines)
    ensures ParsePaths(lines).Err? ==>
              exists j: nat :: FirstEarlyOffsetsAt(lines, j) && ParsePaths(lines).error == OffsetsBeforePath(j)
  {
    RunMatchesExpected(lines);
  }

  /** Exactly one record per `o` line. */
  lemma {:induction false} ExpectedPathsCount(lines: seq<string>)
    ensures |ExpectedPaths(lines)| == CountOffsets(lines)
    decreases |lines|
  {
    if |lines| > 0 {
      ExpectedPathsCount(lines[..|lines| - 1]);
    }
  }

  /** Lines after position `j` that are not `o` lines add no record; in
      particular a `P` (and `z`) with no later `o` line is dropped. */
  lemma {:induction false} NoOffsetsNoRecords(lines: seq<string>, j: nat)
    requires j <= |lines|
    requires forall i :: j <= i < |lines| ==> Classify(lines[i]) != OffsetsLine
    ensures ExpectedPaths(lines) == ExpectedPaths(lines[..j])
    decreases |lines|
  {
    if |lines| > j {
      var before := lines[..|lines| - 1];
      assert before[..j] == lines[..j];
      NoOffsetsNoRecords(before, j);
    } else {
      assert lines[..j] == lines;
    }
  }

  /** Record ids name opened paths and never decrease, and every node
      reference carries an orientation suffix. */
  lemma {:induction false} ExpectedPathsShape(lines: seq<string>)
    requires NoEarlyOffsets(lines)
    ensures forall k :: 0 <= k < |ExpectedPaths(lines)| ==>
              1 <= ExpectedPaths(lines)[k].id <= CountPaths(lines)
    ensures forall k, m :: 0 <= k < m < |ExpectedPaths(lines)| ==>
              ExpectedPaths(lines)[k].id <= ExpectedPaths(lines)[m].id
    ensures forall k, n :: 0 <= k < |ExpectedPaths(lines)| && 0 <= n < |ExpectedPaths(lines)[k].sequence| ==>
              IsOriented(ExpectedPaths(lines)[k].sequence[n])
    decreases |lines|
  {
    if |lines| > 0 {
      var before := lines[..|lines| - 1];
      NoEarlyOffsetsSnoc(lines);
      ExpectedPathsShape(before);
      LastNodesOriented(before);
    }
  }

  /** A node reference in suffix notation. */
  predicate IsOriented(ref: string) {
    |ref| > 0 && (ref[|ref| - 1] == '+' || ref[|ref| - 1] == '-')
  }

  lemma {:induction false} LastNodesOriented(lines: seq<string>)
    ensures forall n :: 0 <= n < |LastNodes(lines)| ==> IsOriented(LastNodes(lines)[n])
    decreases |lines|
  {
    if |lines| > 0 {
      var last := lines[|lines| - 1];
      if Classify(last) == NodesLine {
        var r := OrientAll(Payload(last));
        assert forall n :: 0 <= n < |r| ==> r[n] == Orient(Payload(last)[n]);
      } else if Classify(last) != PathOpenLine {
        LastNodesOriented(lines[..|lines| - 1]);
      }
    }
  }
}
