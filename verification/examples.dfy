/** Worked runs of the converter on small inputs, line by line. */
module Examples {
  import opened Results
  import opened Text
  import opened Decimal
  import opened Gbwt
  import opened Paths
  import opened Fasta
  import opened GfaWriter
  import opened Converter
  import LineFold
  import OrderedMap

  // Tokens of the input lines. Each lemma takes its line as a parameter so
  // that the split is derived from `SplitUnwords` rather than by unfolding.

  lemma {:induction false} TokensOf(line: string, words: seq<string>)
    requires forall i :: 0 <= i < |words| ==> IsWord(words[i])
    requires line == Join(words, ' ') + "\n"
    ensures Split(line) == words
  {
    SplitUnwords(words, "\n");
  }

  lemma {:induction false} ParseSmall(token: string, n: nat)
    requires n < 10 && token == [DigitChar(n)]
    ensures ParseInt(token) == Some(n)
    ensures ParseInt(token + "\n") == Some(n)
  {
    StripNewline(token + "\n", token);
    assert Strip(token) == token by {
      assert LeadingSpaces(token) == 0 && TrailingSpaces(token) == 0;
    }
    assert DigitsValue(token) == n by {
      assert token[..0] == [];
    }
  }

  // -------------------------------------------------------------------
  // The sequence table `>1` / `ACGT`.

  lemma {:induction false} FastaHeaderExample(l0: string)
    requires l0 == ">1\n"
    ensures Fasta.Step(Fasta.Start, l0, 0) == Ok(FastaState(Label(1), []))
  {
    assert l0[1..] == "1" + "\n";
    ParseSmall("1", 1);
  }

  lemma {:induction false} FastaBodyExample(l1: string)
    requires l1 == "ACGT\n"
    ensures Fasta.Step(FastaState(Label(1), []), l1, 1) == Ok(FastaState(Label(1), [(Label(1), "ACGT")]))
  {
    StripNewline(l1, "ACGT");
    assert OrderedMap.Put([], Label(1), "ACGT") == [(Label(1), "ACGT")];
  }

  lemma {:induction false} FastaRunExample(l0: string, l1: string)
    requires l0 == ">1\n" && l1 == "ACGT\n"
    ensures Fasta.Run([l0, l1]) == Ok(FastaState(Label(1), [(Label(1), "ACGT")]))
  {
    var s1 := FastaState(Label(1), []);
    var s2 := FastaState(Label(1), [(Label(1), "ACGT")]);
    FastaHeaderExample(l0);
    FastaBodyExample(l1);
    LineFold.FoldOk(Fasta.StepFn(), Fasta.Start, l0, [l1], 0, s1);
    LineFold.FoldOk(Fasta.StepFn(), s1, l1, [], 1, s2);
    assert [l0] + [l1] == [l0, l1];
    assert [l1] + [] == [l1];
  }

  lemma FastaExample()
    ensures ParseFasta([">1\n", "ACGT\n"]) == Ok([(Label(1), "ACGT")])
  {
    FastaRunExample(">1\n", "ACGT\n");
  }

  // -------------------------------------------------------------------
  // The graph file `V` / `E 2 1` with submer size 4.

  lemma {:induction false} EdgeLineExample(line: string)
    requires line == "E 2 1\n"
    ensures DecodeEdge(line, 1) == Ok(EdgeFields(2, 1))
  {
    assert line == Join(["E", "2", "1"], ' ') + "\n";
    TokensOf(line, ["E", "2", "1"]);
    ParseSmall("2", 2);
    ParseSmall("1", 1);
  }

  lemma {:induction false} GbwtVertexExample(l0: string)
    requires l0 == "V\n"
    ensures Gbwt.Step(4, Gbwt.Start, l0, 0) == Ok(GbwtState(1, [Segment(1)], []))
  {
    assert Gbwt.Classify(l0) == VertexLine;
    assert [] + [Segment(1)] == [Segment(1)];
  }

  lemma {:induction false} GbwtEdgeExample(l1: string)
    requires l1 == "E 2 1\n"
    ensures Gbwt.Step(4, GbwtState(1, [Segment(1)], []), l1, 1)
            == Ok(GbwtState(1, [Segment(1)], [Link(2, Forward, 1, Forward, 3)]))
  {
    EdgeLineExample(l1);
    assert Gbwt.Classify(l1) == EdgeLine(IntoCurrent);
    assert MakeLink(IntoCurrent, EdgeFields(2, 1), 1, 4) == Link(2, Forward, 1, Forward, 3);
    assert [] + [Link(2, Forward, 1, Forward, 3)] == [Link(2, Forward, 1, Forward, 3)];
  }

  lemma {:induction false} GbwtRunExample(l0: string, l1: string)
    requires l0 == "V\n" && l1 == "E 2 1\n"
    ensures Gbwt.Run([l0, l1], 4) == Ok(GbwtState(1, [Segment(1)], [Link(2, Forward, 1, Forward, 3)]))
  {
    var s1 := GbwtState(1, [Segment(1)], []);
    var s2 := GbwtState(1, [Segment(1)], [Link(2, Forward, 1, Forward, 3)]);
    GbwtVertexExample(l0);
    GbwtEdgeExample(l1);
    LineFold.FoldOk(StepWith(4), Gbwt.Start, l0, [l1], 0, s1);
    LineFold.FoldOk(StepWith(4), s1, l1, [], 1, s2);
    assert [l0] + [l1] == [l0, l1];
    assert [l1] + [] == [l1];
  }

  lemma GbwtExample()
    ensures ParseGbwt(["V\n", "E 2 1\n"], 4) == Ok(Graph([Segment(1)], [Link(2, Forward, 1, Forward, 3)]))
  {
    GbwtRunExample("V\n", "E 2 1\n");
  }

  // -------------------------------------------------------------------
  // The path file `P x x` / `z x x 1` / `o x x 5`. The tokens after the
  // first two are `x 1` and `x 5`, so both lists keep the `x`.

  /** A `z` or `o` line with tag `tag`: the payload keeps the `x` and `last`. */
  lemma {:induction false} PayloadExample(line: string, tag: string, last: string)
    requires IsWord(tag) && IsWord(last)
    requires line == tag + " x x " + last + "\n"
    ensures Payload(line) == ["x", last]
  {
    var ws := [tag, "x", "x", last];
    assert Join(ws, ' ') == tag + " x x " + last by {
      assert ws[1..][1..][1..] == [last];
      assert Join(ws[1..][1..], ' ') == "x" + " " + last;
      assert Join(ws[1..], ' ') == "x" + " " + ("x" + " " + last);
    }
    assert IsWord("x");
    TokensOf(line, [tag, "x", "x", last]);
    assert [tag, "x", "x", last][2..] == ["x", last];
  }

  lemma OrientExample()
    ensures OrientAll(["x", "1"]) == ["x+", "1+"]
  {
    assert Orient("x") == "x+" && Orient("1") == "1+";
  }

  lemma {:induction false} PathsNodesStepExample(l1: string)
    requires l1 == "z x x 1\n"
    ensures Paths.Step(PathState(1, [], []), l1, 1) == Ok(PathState(1, ["x+", "1+"], []))
  {
    PayloadExample(l1, "z", "1");
    OrientExample();
  }

  lemma {:induction false} PathsOffsetsStepExample(l2: string)
    requires l2 == "o x x 5\n"
    ensures Paths.Step(PathState(1, ["x+", "1+"], []), l2, 2)
            == Ok(PathState(1, ["x+", "1+"], [PathRecord(1, ["x+", "1+"], ["x", "5"])]))
  {
    PayloadExample(l2, "o", "5");
    assert Paths.Classify(l2) == OffsetsLine;
    assert [] + [PathRecord(1, ["x+", "1+"], ["x", "5"])] == [PathRecord(1, ["x+", "1+"], ["x", "5"])];
  }

  lemma {:induction false} PathsRunExample(l0: string, l1: string, l2: string)
    requires l0 == "P x x\n" && l1 == "z x x 1\n" && l2 == "o x x 5\n"
    ensures Paths.Run([l0, l1, l2]) == Ok(PathState(1, ["x+", "1+"], [PathRecord(1, ["x+", "1+"], ["x", "5"])]))
  {
    var s1 := PathState(1, [], []);
    var s2 := PathState(1, ["x+", "1+"], []);
    var s3 := PathState(1, ["x+", "1+"], [PathRecord(1, ["x+", "1+"], ["x", "5"])]);
    assert Paths.Step(Paths.Start, l0, 0) == Ok(s1);
    PathsNodesStepExample(l1);
    PathsOffsetsStepExample(l2);
    LineFold.FoldOk(Paths.StepFn(), Paths.Start, l0, [l1, l2], 0, s1);
    LineFold.FoldOk(Paths.StepFn(), s1, l1, [l2], 1, s2);
    LineFold.FoldOk(Paths.StepFn(), s2, l2, [], 2, s3);
    assert [l0] + [l1, l2] == [l0, l1, l2];
    assert [l1] + [l2] == [l1, l2];
    assert [l2] + [] == [l2];
  }

  lemma PathsExample()
    ensures ParsePaths(["P x x\n", "z x x 1\n", "o x x 5\n"]) == Ok([PathRecord(1, ["x+", "1+"], ["x", "5"])])
  {
    PathsRunExample("P x x\n", "z x x 1\n", "o x x 5\n");
  }

  // -------------------------------------------------------------------
  // The written file.

  lemma {:induction false} SegmentLineExample(seg: Segment, table: Fasta.Table)
    requires seg == Segment(1) && table == [(Label(1), "ACGT")]
    ensures SegmentLine(seg, table) == "S\t1\tACGT"
  {
    assert NatToString(1) == "1";
    assert OrderedMap.Get(table, Fasta.Label(1)) == Some("ACGT");
    assert Join(["S", "1", "ACGT"], '\t') == "S\t1\tACGT";
  }

  lemma {:induction false} LinkLineExample(link: Link)
    requires link == Link(2, Forward, 1, Forward, 3)
    ensures LinkLine(link) == "L\t2\t+\t1\t+\t3M"
  {
    assert NatToString(1) == "1" && NatToString(2) == "2";
    assert IntToString(3) + "M" == "3M";
    assert OrientationText(Forward) == "+";
    assert Join(["L", "2", "+", "1", "+", "3M"], '\t') == "L\t2\t+\t1\t+\t3M";
  }

  lemma {:induction false} PathLineExample(path: PathRecord)
    requires path == PathRecord(1, ["x+", "1+"], ["x", "5"])
    ensures GfaWriter.PathLine(path) == "P\t1\tx+,1+\tx,5"
  {
    assert NatToString(1) == "1";
    assert Join(["x+", "1+"], ',') == "x+,1+";
    assert Join(["x", "5"], ',') == "x,5";
    assert Join(["P", "1", "x+,1+", "x,5"], '\t') == "P\t1\tx+,1+\tx,5";
  }

  lemma {:induction false} WriterExample(segments: seq<Segment>, links: seq<Link>, paths: seq<PathRecord>, table: Fasta.Table)
    requires segments == [Segment(1)] && links == [Link(2, Forward, 1, Forward, 3)]
    requires paths == [PathRecord(1, ["x+", "1+"], ["x", "5"])] && table == [(Label(1), "ACGT")]
    ensures WriteGfa(segments, links, paths, table)
            == ["H\tVN:Z:1.0", "S\t1\tACGT", "L\t2\t+\t1\t+\t3M", "P\t1\tx+,1+\tx,5"]
  {
    SegmentLineExample(segments[0], table);
    LinkLineExample(links[0]);
    PathLineExample(paths[0]);
    var out := WriteGfa(segments, links, paths, table);
    assert |out| == 4 && out[0] == "H\tVN:Z:1.0";
    assert out[1] == "S\t1\tACGT";
    assert out[2] == "L\t2\t+\t1\t+\t3M";
    assert out[3] == "P\t1\tx+,1+\tx,5";
  }

  /** The whole run on the three small files. */
  lemma ConvertExample()
    ensures Convert(["V\n", "E 2 1\n"], ["P x x\n", "z x x 1\n", "o x x 5\n"], [">1\n", "ACGT\n"])
            == Ok(["H\tVN:Z:1.0", "S\t1\tACGT", "L\t2\t+\t1\t+\t3M", "P\t1\tx+,1+\tx,5"])
  {
    FastaExample();
    assert SubmerSize([(Label(1), "ACGT")]) == Ok(4);
    GbwtExample();
    PathsExample();
    WriterExample([Segment(1)], [Link(2, Forward, 1, Forward, 3)], [PathRecord(1, ["x+", "1+"], ["x", "5"])],
                  [(Label(1), "ACGT")]);
  }
}
