/** `main`: the three parsers and the writer run in sequence.

    The sequence table is read first, since the submer size it yields is an
    input of the graph parser; then the graph file, then the path file; the
    first failure ends the run. Command-line handling, file access and the
    progress messages are not part of this model: the files arrive as their
    lines and the output leaves as its lines.
 */
module Converter {
  import opened Results
  import opened Gbwt
  import opened Paths
  import opened Fasta
  import opened GfaWriter

  /** The output lines for the given graph, path and sequence files. */
  function Convert(gbwtLines: seq<string>, pathLines: seq<string>, fastaLines: seq<string>): Result<seq<string>> {
    var table :- ParseFasta(fastaLines);
    var submer :- SubmerSize(table);
    var graph :- ParseGbwt(gbwtLines, submer);
    var paths :- ParsePaths(pathLines);
    Ok(WriteGfa(graph.segments, graph.links, paths, table))
  }

  /** Each input fails the run exactly as its parser fails, the sequence
      table first, then the submer size, the graph file and the path file. */
  lemma {:induction false} ConvertFails(gbwtLines: seq<string>, pathLines: seq<string>, fastaLines: seq<string>)
    ensures Convert(gbwtLines, pathLines, fastaLines).Ok? <==>
              && HeadersWellFormed(fastaLines)
              && FirstBodyLabel(fastaLines).Some?
              && EdgesWellFormed(gbwtLines)
              && NoEarlyOffsets(pathLines)
    ensures ParseFasta(fastaLines).Err? ==>
              Convert(gbwtLines, pathLines, fastaLines) == Err(ParseFasta(fastaLines).error)
    ensures HeadersWellFormed(fastaLines) && FirstBodyLabel(fastaLines).None? ==>
              Convert(gbwtLines, pathLines, fastaLines) == Err(EmptySequenceTable)
    ensures ParseFasta(fastaLines).Ok? && SubmerSize(ParseFasta(fastaLines).value).Ok? ==>
              var submer := SubmerSize(ParseFasta(fastaLines).value).value;
              && (ParseGbwt(gbwtLines, submer).Err? ==>
                    Convert(gbwtLines, pathLines, fastaLines) == Err(ParseGbwt(gbwtLines, submer).error))
              && (ParseGbwt(gbwtLines, submer).Ok? && ParsePaths(pathLines).Err? ==>
                    Convert(gbwtLines, pathLines, fastaLines) == Err(ParsePaths(pathLines).error))
  {
    ParseFastaSpec(fastaLines);
    if HeadersWellFormed(fastaLines) {
      SubmerSizeSpec(fastaLines);
      var table := ParseFasta(fastaLines).value;
      if FirstBodyLabel(fastaLines).Some? {
        var submer := SubmerSize(table).value;
        ParseGbwtSpec(gbwtLines, submer);
        ParsePathsSpec(pathLines);
      }
    }
  }

  /** A successful run writes the header and one line per `V` line, per
      `E`/`e` line and per `o` line of the inputs. */
  lemma {:induction false} ConvertLineCount(gbwtLines: seq<string>, pathLines: seq<string>, fastaLines: seq<string>)
    requires Convert(gbwtLines, pathLines, fastaLines).Ok?
    ensures |Convert(gbwtLines, pathLines, fastaLines).value|
            == 1 + CountVertices(gbwtLines) + CountEdges(gbwtLines) + CountOffsets(pathLines)
    ensures Convert(gbwtLines, pathLines, fastaLines).value[0] == Header
  {
    var table := ParseFasta(fastaLines).value;
    var submer := SubmerSize(table).value;
    var graph := ParseGbwt(gbwtLines, submer).value;
    var paths := ParsePaths(pathLines).value;
    ParseGbwtSpec(gbwtLines, submer);
    ParsePathsSpec(pathLines);
    ExpectedLinksCount(gbwtLines, submer);
    ExpectedPathsCount(pathLines);
    assert Convert(gbwtLines, pathLines, fastaLines).value == WriteGfa(graph.segments, graph.links, paths, table);
  }

  /** A successful run writes exactly what the declarative definitions of the three files give:
      segments `1..#V`, one link per edge line with overlaps taken from the
      submer size, one path per `o` line, and the parsed sequence table. */
  lemma {:induction false} ConvertOutput(gbwtLines: seq<string>, pathLines: seq<string>, fastaLines: seq<string>)
    requires Convert(gbwtLines, pathLines, fastaLines).Ok?
    ensures EdgesWellFormed(gbwtLines) && HeadersWellFormed(fastaLines) && FirstBodyLabel(fastaLines).Some?
    ensures LastBody(fastaLines, FirstBodyLabel(fastaLines).value).Some?
    ensures var submer := |LastBody(fastaLines, FirstBodyLabel(fastaLines).value).value|;
            Convert(gbwtLines, pathLines, fastaLines).value
            == WriteGfa(Numbered(CountVertices(gbwtLines)), ExpectedLinks(gbwtLines, submer),
                        ExpectedPaths(pathLines), ParseFasta(fastaLines).value)
  {
    ConvertFails(gbwtLines, pathLines, fastaLines);
    SubmerSizeSpec(fastaLines);
    var submer := SubmerSize(ParseFasta(fastaLines).value).value;
    ParseGbwtSpec(gbwtLines, submer);
    ParsePathsSpec(pathLines);
  }
}
