/** `parse_gbwt`: the node/edge record file read into GFA segments and links.

    A `V` line mints the next segment id (1, 2, 3, ...). An `E` or `e` line
    carries a signed target id and a raw overlap; it links the target to the
    most recently minted segment (`E`: target -> current, `e`: current ->
    target). The overlap written on the link is `submer_size - raw overlap`.
 */
module Gbwt {
  import opened Results
  import opened Text
  import opened Decimal
  import LineFold

  datatype Orientation = Forward | Reverse

  datatype Segment = Segment(id: nat)

  /** A GFA link `from fromDir -> to toDir` with an overlap length. */
  datatype Link = Link(from: nat, fromDir: Orientation, to: nat, toDir: Orientation, overlap: int)

  /** `E` lines end at the current segment, `e` lines start from it. */
  datatype EdgeKind = IntoCurrent | OutOfCurrent

  datatype LineKind = VertexLine | EdgeLine(kind: EdgeKind) | OtherLine

  /** The prefix tests of the parser, first match wins. */
  function Classify(line: string): LineKind {
    if StartsWith(line, 'V') then VertexLine
    else if StartsWith(line, 'E') then EdgeLine(IntoCurrent)
    else if StartsWith(line, 'e') then EdgeLine(OutOfCurrent)
    else OtherLine
  }

  /** The two numbers an edge line carries: `E <signed target> <overlap>`. */
  datatype EdgeFields = EdgeFields(target: int, overlapField: int)

  /** Reads the fields of the edge line at position `index`, failing the way
      `int(parts[1])` and `int(parts[2])` fail, in that order. */
  function DecodeEdge(line: string, index: nat): Result<EdgeFields> {
    var parts := Split(line);
    if |parts| < 2 then Err(MissingField(index, 1))
    else
      match ParseInt(parts[1])
      case None => Err(BadInteger(index, parts[1]))
      case Some(target) =>
        if |parts| < 3 then Err(MissingField(index, 2))
        else
          match ParseInt(parts[2])
          case None => Err(BadInteger(index, parts[2]))
          case Some(overlap) => Ok(EdgeFields(target, overlap))
  }

  /** An edge line with the given tag and fields, one space between tokens. */
  function EncodeEdge(tag: char, f: EdgeFields): string {
    Join([[tag], IntToString(f.target), IntToString(f.overlapField)], ' ')
  }

  function Abs(x: int): nat {
    if x < 0 then -x else x
  }

  /** The link an edge line of kind `kind` adds while `current` is the most
      recently minted segment id (0 before any `V` line). */
  function MakeLink(kind: EdgeKind, f: EdgeFields, current: nat, submer: nat): (l: Link)
    ensures kind == IntoCurrent ==>
              && l.from == Abs(f.target) && l.to == current
              && (l.fromDir == Reverse <==> f.target < 0) && l.toDir == Forward
    ensures kind == OutOfCurrent ==>
              && l.from == current && l.to == Abs(f.target)
              && l.fromDir == Forward && (l.toDir == Reverse <==> f.target < 0)
    ensures l.overlap == submer - f.overlapField
  {
    var reverse := f.target < 0;
    var far := Abs(f.target);
    var into := kind == IntoCurrent;
    Link(
      from := if into then far else current,
      fromDir := if reverse && into then Reverse else Forward,
      to := if into then current else far,
      toDir := if reverse && !into then Reverse else Forward,
      overlap := submer - f.overlapField)
  }

  /** The same two ends, the other way round. */
  function Swap(l: Link): Link {
    Link(l.to, l.toDir, l.from, l.fromDir, l.overlap)
  }

  /** The signed target id as the line wrote it, read back from a link:
      the far end's id, negated when that end is reversed. */
  function SignedTarget(kind: EdgeKind, l: Link): int {
    match kind
    case IntoCurrent => if l.fromDir == Reverse then -(l.from as int) else l.from
    case OutOfCurrent => if l.toDir == Reverse then -(l.to as int) else l.to
  }

  datatype GbwtState = GbwtState(nodeId: nat, segments: seq<Segment>, links: seq<Link>)

  const Start := GbwtState(0, [], [])

  /** One iteration of the loop over the file's lines. */
  function Step(submer: nat, st: GbwtState, line: string, index: nat): Result<GbwtState> {
    match Classify(line)
    case VertexLine =>
      Ok(st.(nodeId := st.nodeId + 1, segments := st.segments + [Segment(st.nodeId + 1)]))
    case EdgeLine(kind) =>
      (match DecodeEdge(line, index)
       case Err(e) => Err(e)
       case Ok(f) => Ok(st.(links := st.links + [MakeLink(kind, f, st.nodeId, submer)])))
    case OtherLine => Ok(st)
  }

  function StepWith(submer: nat): (GbwtState, string, nat) -> Result<GbwtState> {
    (st: GbwtState, line: string, index: nat) => Step(submer, st, line, index)
  }

  function Run(lines: seq<string>, submer: nat): Result<GbwtState> {
    LineFold.Fold(StepWith(submer), Start, lines, 0)
  }

  datatype Graph = Graph(segments: seq<Segment>, links: seq<Link>)

  /** `parse_gbwt(file, submer_size)` on the file's lines. */
  function ParseGbwt(lines: seq<string>, submer: nat): Result<Graph> {
    match Run(lines, submer)
    case Err(e) => Err(e)
    case Ok(st) => Ok(Graph(st.segments, st.links))
  }

  // ---------------------------------------------------------------------
  // What the parser promises, stated line by line over the file.

  /** Number of `V` lines. */
  function CountVertices(lines: seq<string>): nat {
    if |lines| == 0 then 0
    else CountVertices(lines[..|lines| - 1]) + (if Classify(lines[|lines| - 1]) == VertexLine then 1 else 0)
  }

  /** Number of `E` and `e` lines. */
  function CountEdges(lines: seq<string>): nat {
    if |lines| == 0 then 0
    else CountEdges(lines[..|lines| - 1]) + (if Classify(lines[|lines| - 1]).EdgeLine? then 1 else 0)
  }

  /** Segments `1..k`, in that order. */
  function Numbered(k: nat): (segs: seq<Segment>)
    ensures |segs| == k && forall i :: 0 <= i < k ==> segs[i].id == i + 1
  {
    seq(k, (i: nat) => Segment(i + 1))
  }

  /** Every edge line carries the two integers it needs. */
  predicate EdgesWellFormed(lines: seq<string>) {
    forall i :: 0 <= i < |lines| && Classify(lines[i]).EdgeLine? ==> DecodeEdge(lines[i], i).Ok?
  }

  /** One link per edge line, in file order, each built from its own line's
      fields and the number of `V` lines before it. */
  function ExpectedLinks(lines: seq<string>, submer: nat): seq<Link>
    requires EdgesWellFormed(lines)
  {
    if |lines| == 0 then []
    else
      var before := lines[..|lines| - 1];
      var last := lines[|lines| - 1];
      assert EdgesWellFormed(before) by {
        forall i | 0 <= i < |before| && Classify(before[i]).EdgeLine?
          ensures DecodeEdge(before[i], i).Ok?
        {
          assert before[i] == lines[i];
        }
      }
      match Classify(last)
      case EdgeLine(kind) =>
        ExpectedLinks(before, submer) + [MakeLink(kind, DecodeEdge(last, |before|).value, CountVertices(before), submer)]
      case _ => ExpectedLinks(before, submer)
  }

  /** The parser state the loop is meant to hold after `lines`. */
  function Expected(lines: seq<string>, submer: nat): GbwtState
    requires EdgesWellFormed(lines)
  {
    GbwtState(CountVertices(lines), Numbered(CountVertices(lines)), ExpectedLinks(lines, submer))
  }

  /** Line `j` is an edge line that does not decode, and the first such line. */
  predicate FirstBadEdgeAt(lines: seq<string>, j: nat) {
    && j < |lines|
    && Classify(lines[j]).EdgeLine?
    && DecodeEdge(lines[j], j).Err?
    && EdgesWellFormed(lines[..j])
  }

  lemma {:induction false} EdgesWellFormedSnoc(lines: seq<string>)
    requires |lines| > 0
    ensures EdgesWellFormed(lines) <==>
              && EdgesWellFormed(lines[..|lines| - 1])
              && (Classify(lines[|lines| - 1]).EdgeLine? ==> DecodeEdge(lines[|lines| - 1], |lines| - 1).Ok?)
  {
    var before := lines[..|lines| - 1];
    assert forall i :: 0 <= i < |before| ==> before[i] == lines[i];
  }

  /** The loop invariant of `parse_gbwt`: after any prefix of the file,
      `node_id` is the number of `V` lines read, the segments are `1..node_id`,
      and the links are one per edge line so far; the run fails exactly when
      some edge line is malformed, with the error of the first such line. */
  lemma {:induction false} RunMatchesExpected(lines: seq<string>, submer: nat)
    ensures Run(lines, submer).Ok? <==> EdgesWellFormed(lines)
    ensures Run(lines, submer).Ok? ==> Run(lines, submer).value == Expected(lines, submer)
    ensures Run(lines, submer).Err? ==>
              exists j: nat :: FirstBadEdgeAt(lines, j) && DecodeEdge(lines[j], j).error == Run(lines, submer).error
    decreases |lines|
  {
    if |lines| > 0 {
      var before := lines[..|lines| - 1];
      var last := lines[|lines| - 1];
      LineFold.FoldLast(StepWith(submer), Start, lines);
      RunMatchesExpected(before, submer);
      EdgesWellFormedSnoc(lines);
      var r := Run(before, submer);
      if r.Err? {
        var j: nat :| FirstBadEdgeAt(before, j) && DecodeEdge(before[j], j).error == r.error;
        FirstBadEdgeKept(lines, j);
      } else if Classify(last).EdgeLine? && DecodeEdge(last, |before|).Err? {
        assert before == lines[..|before|];
      } else {
        var st := r.value;
        if Classify(last) == VertexLine {
          assert Numbered(st.nodeId) + [Segment(st.nodeId + 1)] == Numbered(st.nodeId + 1);
        }
      }
    }
  }

  lemma {:induction false} FirstBadEdgeKept(lines: seq<string>, j: nat)
    requires |lines| > 0
    requires FirstBadEdgeAt(lines[..|lines| - 1], j)
    ensures FirstBadEdgeAt(lines, j)
    ensures lines[j] == lines[..|lines| - 1][j]
  {
    assert lines[..j] == lines[..|lines| - 1][..j];
  }

  /** `parse_gbwt` in full: segments `1..k` for the `k` `V` lines, one link
      per edge line in file order, or the first malformed edge line's error. */
  lemma {:induction false} ParseGbwtSpec(lines: seq<string>, submer: nat)
    ensures ParseGbwt(lines, submer).Ok? <==> EdgesWellFormed(lines)
    ensures ParseGbwt(lines, submer).Ok? ==>
              && ParseGbwt(lines, submer).value.segments == Numbered(CountVertices(lines))
              && ParseGbwt(lines, submer).value.links == ExpectedLinks(lines, submer)
    ensures ParseGbwt(lines, submer).Err? ==>
              exists j: nat :: FirstBadEdgeAt(lines, j) && DecodeEdge(lines[j], j).error == ParseGbwt(lines, submer).error
  {
    RunMatchesExpected(lines, submer);
  }

  /** Exactly one link per `E`/`e` line. */
  lemma {:induction false} ExpectedLinksCount(lines: seq<string>, submer: nat)
    requires EdgesWellFormed(lines)
    ensures |ExpectedLinks(lines, submer)| == CountEdges(lines)
    decreases |lines|
  {
    if |lines| > 0 {
      ExpectedLinksCount(lines[..|lines| - 1], submer);
    }
  }

  /** An `e` line gives the link an `E` line with the same fields gives, with
      its two ends exchanged. */
  lemma {:induction false} OutOfIsSwappedInto(f: EdgeFields, current: nat, submer: nat)
    ensures MakeLink(OutOfCurrent, f, current, submer) == Swap(MakeLink(IntoCurrent, f, current, submer))
  {
  }

  /** No information of the edge line is lost: its signed target and its raw
      overlap can be read back from the link. */
  lemma {:induction false} MakeLinkInvertible(kind: EdgeKind, f: EdgeFields, current: nat, submer: nat)
    ensures SignedTarget(kind, MakeLink(kind, f, current, submer)) == f.target
    ensures submer - MakeLink(kind, f, current, submer).overlap == f.overlapField
  {
  }

  /** Decoding an edge line written with single spaces gives its fields back. */
  lemma {:induction false} DecodeEncodeEdge(tag: char, f: EdgeFields, index: nat)
    requires !IsSpace(tag)
    ensures DecodeEdge(EncodeEdge(tag, f), index) == Ok(f)
  {
    var parts := [[tag], IntToString(f.target), IntToString(f.overlapField)];
    IntToStringIsWord(f.target);
    IntToStringIsWord(f.overlapField);
    SplitUnwords(parts, "");
    assert EncodeEdge(tag, f) + "" == EncodeEdge(tag, f);
    ParseIntOfIntToString(f.target);
    ParseIntOfIntToString(f.overlapField);
  }
}
