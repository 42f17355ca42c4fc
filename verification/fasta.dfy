/** `parse_fasta`: the sequence table, and the submer size derived from it.

    A `>` line sets the current label to the integer after the marker; any
    other line stores its stripped text under the current label, replacing
    what was stored there before. Lines before the first header are stored
    under the "no label" key. The submer size is the length of the value of
    the entry inserted first.
 */
module Fasta {
  import opened Results
  import opened Text
  import opened Decimal
  import opened OrderedMap
  import LineFold

  /** A table key: Python's `None` before any header, then the header's integer. */
  datatype Label = NoLabel | Label(n: int)

  /** The sequence table in insertion order. */
  type Table = seq<(Label, string)>

  predicate IsHeader(line: string) {
    StartsWith(line, '>')
  }

  /** `int(line[1:].strip())` on a header line. */
  function HeaderLabel(line: string): Option<int>
    requires IsHeader(line)
  {
    ParseInt(line[1..])
  }

  datatype FastaState = FastaState(current: Label, table: Table)

  const Start := FastaState(NoLabel, [])

  /** One iteration of the loop over the file's lines. */
  function Step(st: FastaState, line: string, index: nat): Result<FastaState> {
    if IsHeader(line) then
      match HeaderLabel(line)
      case None => Err(BadInteger(index, Strip(line[1..])))
      case Some(n) => Ok(st.(current := Label(n)))
    else Ok(st.(table := Put(st.table, st.current, Strip(line))))
  }

  function StepFn(): (FastaState, string, nat) -> Result<FastaState> {
    (st: FastaState, line: string, index: nat) => Step(st, line, index)
  }

  function Run(lines: seq<string>): Result<FastaState> {
    LineFold.Fold(StepFn(), Start, lines, 0)
  }

  /** `parse_fasta(file)` on the file's lines. */
  function ParseFasta(lines: seq<string>): Result<Table> {
    match Run(lines)
    case Err(e) => Err(e)
    case Ok(st) => Ok(st.table)
  }

  /** `len(next(iter(sequences.values())))`. */
  function SubmerSize(t: Table): Result<nat> {
    match FirstValue(t)
    case None => Err(EmptySequenceTable)
    case Some(v) => Ok(|v|)
  }

  // ---------------------------------------------------------------------
  // What the parser promises, stated line by line over the file.

  /** Every header carries an integer. */
  predicate HeadersWellFormed(lines: seq<string>) {
    forall i :: 0 <= i < |lines| && IsHeader(lines[i]) ==> HeaderLabel(lines[i]).Some?
  }

  /** Line `j` is a header without an integer, and the first such line. */
  predicate FirstBadHeaderAt(lines: seq<string>, j: nat) {
    && j < |lines|
    && IsHeader(lines[j])
    && HeaderLabel(lines[j]).None?
    && HeadersWellFormed(lines[..j])
  }

  /** The label of the last well-formed header, or no label. */
  function CurrentLabel(lines: seq<string>): Label {
    if |lines| == 0 then NoLabel
    else
      var last := lines[|lines| - 1];
      if IsHeader(last) && HeaderLabel(last).Some? then Label(HeaderLabel(last).value)
      else CurrentLabel(lines[..|lines| - 1])
  }

  /** The stripped text of the last non-header line read under label `k`. */
  function LastBody(lines: seq<string>, k: Label): Option<string> {
    if |lines| == 0 then None
    else
      var before := lines[..|lines| - 1];
      var last := lines[|lines| - 1];
      if !IsHeader(last) && CurrentLabel(before) == k then Some(Strip(last))
      else LastBody(before, k)
  }

  /** The label under which the first non-header line was read, if any. */
  function FirstBodyLabel(lines: seq<string>): Option<Label> {
    if |lines| == 0 then None
    else
      var before := lines[..|lines| - 1];
      match FirstBodyLabel(before)
      case Some(k) => Some(k)
      case None => if IsHeader(lines[|lines| - 1]) then None else Some(CurrentLabel(before))
  }

  lemma {:induction false} HeadersWellFormedSnoc(lines: seq<string>)
    requires |lines| > 0
    ensures HeadersWellFormed(lines) <==>
              && HeadersWellFormed(lines[..|lines| - 1])
              && (IsHeader(lines[|lines| - 1]) ==> HeaderLabel(lines[|lines| - 1]).Some?)
  {
    var before := lines[..|lines| - 1];
    assert forall i :: 0 <= i < |before| ==> before[i] == lines[i];
  }

  /** What the loop of `parse_fasta` keeps true after any prefix of the file. */
  ghost predicate Invariant(lines: seq<string>, st: FastaState) {
    && st.current == CurrentLabel(lines)
    && DistinctKeys(st.table)
    && (forall k :: Get(st.table, k) == LastBody(lines, k))
    && (|st.table| > 0 <==> FirstBodyLabel(lines).Some?)
    && (|st.table| > 0 ==> st.table[0].0 == FirstBodyLabel(lines).value)
  }

  lemma {:induction false} FirstBadHeaderKept(lines: seq<string>, j: nat)
    requires |lines| > 0
    requires FirstBadHeaderAt(lines[..|lines| - 1], j)
    ensures FirstBadHeaderAt(lines, j)
    ensures lines[j] == lines[..|lines| - 1][j]
  {
    assert lines[..j] == lines[..|lines| - 1][..j];
  }

  lemma {:induction false} FirstBadHeaderLast(lines: seq<string>)
    requires |lines| > 0
    requires HeadersWellFormed(lines[..|lines| - 1])
    requires IsHeader(lines[|lines| - 1]) && HeaderLabel(lines[|lines| - 1]).None?
    ensures FirstBadHeaderAt(lines, |lines| - 1)
  {
  }

  /** A header line moves the current label and stores nothing. */
  lemma {:induction false} HeaderStep(lines: seq<string>, st: FastaState, index: nat)
    requires |lines| > 0
    requires IsHeader(lines[|lines| - 1]) && HeaderLabel(lines[|lines| - 1]).Some?
    requires Invariant(lines[..|lines| - 1], st)
    ensures Step(st, lines[|lines| - 1], index).Ok?
    ensures Invariant(lines, Step(st, lines[|lines| - 1], index).value)
  {
    var before := lines[..|lines| - 1];
    forall k ensures LastBody(lines, k) == LastBody(before, k) { }
  }

  /** A body line stores its stripped text under the current label. */
  lemma {:induction false} BodyStep(lines: seq<string>, st: FastaState, index: nat)
    requires |lines| > 0
    requires !IsHeader(lines[|lines| - 1])
    requires Invariant(lines[..|lines| - 1], st)
    ensures Step(st, lines[|lines| - 1], index).Ok?
    ensures Invariant(lines, Step(st, lines[|lines| - 1], index).value)
  {
    var last := lines[|lines| - 1];
    var t := Put(st.table, st.current, Strip(last));
    assert Step(st, last, index).value.table == t;
    PutShape(st.table, st.current, Strip(last));
    forall k ensures Get(t, k) == LastBody(lines, k) {
      GetPut(st.table, st.current, Strip(last), k);
    }
  }

  /** The loop invariant of `parse_fasta`: the current label is the last
      header's, each label reads the last line stored under it, the first
      entry belongs to the first stored line; the run fails exactly when a
      header has no integer, with the error of the first such header. */
  lemma {:induction false} RunMatchesExpected(lines: seq<string>)
    ensures Run(lines).Ok? <==> HeadersWellFormed(lines)
    ensures Run(lines).Ok? ==> Invariant(lines, Run(lines).value)
    ensures Run(lines).Err? ==>
              exists j: nat :: FirstBadHeaderAt(lines, j) && Run(lines).error == BadInteger(j, Strip(lines[j][1..]))
    decreases |lines|
  {
    if |lines| > 0 {
      var before := lines[..|lines| - 1];
      var last := lines[|lines| - 1];
      LineFold.FoldLast(StepFn(), Start, lines);
      RunMatchesExpected(before);
      HeadersWellFormedSnoc(lines);
      var r := Run(before);
      if r.Err? {
        var j: nat :| FirstBadHeaderAt(before, j) && r.error == BadInteger(j, Strip(before[j][1..]));
        FirstBadHeaderKept(lines, j);
      } else if IsHeader(last) && HeaderLabel(last).None? {
        FirstBadHeaderLast(lines);
      } else if IsHeader(last) {
        HeaderStep(lines, r.value, |before|);
      } else {
        BodyStep(lines, r.value, |before|);
      }
    }
  }

  /** `parse_fasta` in full: every label reads the stripped text of the last
      line stored under it, and parsing fails exactly at the first header
      that carries no integer. */
  lemma {:induction false} ParseFastaSpec(lines: seq<string>)
    ensures ParseFasta(lines).Ok? <==> HeadersWellFormed(lines)
    ensures ParseFasta(lines).Ok? ==>
              && DistinctKeys(ParseFasta(lines).value)
              && forall k :: Get(ParseFasta(lines).value, k) == LastBody(lines, k)
    ensures ParseFasta(lines).Err? ==>
              exists j: nat :: FirstBadHeaderAt(lines, j) && ParseFasta(lines).error == BadInteger(j, Strip(lines[j][1..]))
  {
    RunMatchesExpected(lines);
  }

  /** The submer size is the length of the text last stored under the label
      of the first stored line; with no stored line there is none. */
  lemma {:induction false} SubmerSizeSpec(lines: seq<string>)
    requires HeadersWellFormed(lines)
    ensures ParseFasta(lines).Ok?
    ensures FirstBodyLabel(lines).None? ==> SubmerSize(ParseFasta(lines).value) == Err(EmptySequenceTable)
    ensures FirstBodyLabel(lines).Some? ==>
              && LastBody(lines, FirstBodyLabel(lines).value).Some?
              && SubmerSize(ParseFasta(lines).value) == Ok(|LastBody(lines, FirstBodyLabel(lines).value).value|)
  {
    RunMatchesExpected(lines);
    var t := ParseFasta(lines).value;
    if |t| > 0 {
      KeyIndexIs(t, t[0].0, 0);
      assert Get(t, t[0].0) == Some(t[0].1);
    }
  }

  // ---------------------------------------------------------------------
  // A file that does alternate headers and sequence lines.

  /** The header line `>k`. */
  function HeaderLine(k: int): string {
    ">" + IntToString(k) + "\n"
  }

  /** The file holding `>k` then `s` for each pair `(k, s)`, in order. */
  function PairLines(pairs: seq<(int, string)>): seq<string>
    decreases |pairs|
  {
    if |pairs| == 0 then []
    else
      var last := pairs[|pairs| - 1];
      PairLines(pairs[..|pairs| - 1]) + [HeaderLine(last.0), last.1 + "\n"]
  }

  /** One entry per pair, in file order. */
  function PairTable(pairs: seq<(int, string)>): Table {
    seq(|pairs|, (i: nat) requires i < |pairs| => (Label(pairs[i].0), Strip(pairs[i].1 + "\n")))
  }

  /** Distinct header integers, and no sequence line that reads as a header. */
  predicate WellFormedPairs(pairs: seq<(int, string)>) {
    && (forall i, j :: 0 <= i < j < |pairs| ==> pairs[i].0 != pairs[j].0)
    && (forall i :: 0 <= i < |pairs| ==> !StartsWith(pairs[i].1, '>'))
  }

  /** `>k` is a header carrying `k`; the text after the marker is stripped
      once here and the integer read from it is unchanged by `int()`'s own
      strip. */
  lemma {:induction false} HeaderLineLabel(k: int)
    ensures IsHeader(HeaderLine(k))
    ensures HeaderLabel(HeaderLine(k)) == Some(k)
  {
    var h := HeaderLine(k);
    var digits := IntToString(k);
    assert h[1..] == digits + "\n";
    IntToStringIsWord(k);
    StripNewline(h[1..], digits);
    StripIdempotent(h[1..]);
    ParseIntOfIntToString(k);
  }

  /** A header with a new integer, then a sequence line, appends one entry. */
  lemma {:induction false} PairStep(st: FastaState, k: int, text: string, index: nat)
    requires !StartsWith(text, '>')
    requires forall j :: 0 <= j < |st.table| ==> st.table[j].0 != Label(k)
    ensures Step(st, HeaderLine(k), index) == Ok(st.(current := Label(k)))
    ensures Step(st.(current := Label(k)), text + "\n", index + 1)
            == Ok(FastaState(Label(k), st.table + [(Label(k), Strip(text + "\n"))]))
  {
    HeaderLineLabel(k);
    var b := text + "\n";
    assert !IsHeader(b) by {
      if |text| > 0 { assert b[0] == text[0]; }
    }
    KeyIndexIs(st.table, Label(k), |st.table|);
  }

  lemma {:induction false} PairLinesSnoc(pairs: seq<(int, string)>)
    requires |pairs| > 0
    ensures PairLines(pairs)
            == PairLines(pairs[..|pairs| - 1]) + [HeaderLine(pairs[|pairs| - 1].0)] + [pairs[|pairs| - 1].1 + "\n"]
  {
    var a := PairLines(pairs[..|pairs| - 1]);
    var h, b := HeaderLine(pairs[|pairs| - 1].0), pairs[|pairs| - 1].1 + "\n";
    assert a + [h, b] == a + [h] + [b];
  }

  lemma {:induction false} PairTableSnoc(pairs: seq<(int, string)>)
    requires |pairs| > 0
    ensures PairTable(pairs)
            == PairTable(pairs[..|pairs| - 1]) + [(Label(pairs[|pairs| - 1].0), Strip(pairs[|pairs| - 1].1 + "\n"))]
  {
    var t, u := PairTable(pairs), PairTable(pairs[..|pairs| - 1]);
    assert |t| == |u| + 1;
    assert forall i :: 0 <= i < |u| ==> t[i] == u[i];
  }

  lemma {:induction false} WellFormedPairsPrefix(pairs: seq<(int, string)>)
    requires |pairs| > 0 && WellFormedPairs(pairs)
    ensures WellFormedPairs(pairs[..|pairs| - 1])
    ensures forall j :: 0 <= j < |pairs| - 1 ==> pairs[j].0 != pairs[|pairs| - 1].0
  {
    var before := pairs[..|pairs| - 1];
    assert forall i :: 0 <= i < |before| ==> before[i] == pairs[i];
  }

  /** Two more lines that both step cleanly extend a clean run. */
  lemma {:induction false} RunTwoMore(lines: seq<string>, h: string, b: string, st: FastaState, st1: FastaState, st2: FastaState)
    requires Run(lines) == Ok(st)
    requires Step(st, h, |lines|) == Ok(st1)
    requires Step(st1, b, |lines| + 1) == Ok(st2)
    ensures Run(lines + [h] + [b]) == Ok(st2)
  {
    LineFold.FoldSnoc(StepFn(), Start, lines, h, 0);
    LineFold.FoldSnoc(StepFn(), Start, lines + [h], b, 0);
  }

  /** The loop over a file of header/sequence pairs appends one entry per
      pair and ends on the last header's label. */
  lemma {:induction false} PairsRun(pairs: seq<(int, string)>)
    requires WellFormedPairs(pairs)
    ensures Run(PairLines(pairs))
            == Ok(FastaState(if |pairs| == 0 then NoLabel else Label(pairs[|pairs| - 1].0), PairTable(pairs)))
    decreases |pairs|
  {
    if |pairs| > 0 {
      var before := pairs[..|pairs| - 1];
      var last := pairs[|pairs| - 1];
      WellFormedPairsPrefix(pairs);
      PairsRun(before);
      var lines := PairLines(before);
      var st := Run(lines).value;
      assert forall j :: 0 <= j < |st.table| ==> st.table[j].0 != Label(last.0) by {
        assert forall j :: 0 <= j < |st.table| ==> st.table[j].0 == Label(before[j].0);
      }
      PairStep(st, last.0, last.1, |lines|);
      PairLinesSnoc(pairs);
      PairTableSnoc(pairs);
      RunTwoMore(lines, HeaderLine(last.0), last.1 + "\n", st, st.(current := Label(last.0)),
                 FastaState(Label(last.0), st.table + [(Label(last.0), Strip(last.1 + "\n"))]));
    } else {
      assert PairTable(pairs) == [];
    }
  }

  /** A file that alternates headers with distinct integers and sequence
      lines parses to one entry per pair, in file order: each integer reads
      the stripped text of its sequence line, and the first pair's text
      fixes the submer size. */
  lemma {:induction false} ParsePairs(pairs: seq<(int, string)>)
    requires WellFormedPairs(pairs)
    ensures ParseFasta(PairLines(pairs)) == Ok(PairTable(pairs))
    ensures |ParseFasta(PairLines(pairs)).value| == |pairs|
    ensures forall i :: 0 <= i < |pairs| ==>
              Get(ParseFasta(PairLines(pairs)).value, Label(pairs[i].0)) == Some(Strip(pairs[i].1 + "\n"))
    ensures |pairs| > 0 ==> SubmerSize(ParseFasta(PairLines(pairs)).value) == Ok(|Strip(pairs[0].1 + "\n")|)
  {
    PairsRun(pairs);
    var t := PairTable(pairs);
    forall i | 0 <= i < |pairs|
      ensures Get(t, Label(pairs[i].0)) == Some(Strip(pairs[i].1 + "\n"))
    {
      KeyIndexIs(t, Label(pairs[i].0), i);
    }
  }
}
