# GBWT-to-GFA converter, modelled in Dafny

`utilities/gfa_converter.py` turns three text files into one GFA 1.0 file:

- a node/edge record file. `V` lines mint segments 1, 2, 3, …. `E` and `e` lines add links to the most recent segment.
- a traversal record file. `P` opens a path, `z` gives its oriented nodes and `o` gives its offsets.
- a FASTA-like sequence table. `>n` headers are followed by sequence lines.

It reads the table first. The *submer size* sets the overlap of every link. It is the length of the text last stored under the label of the first stored line: the table `>1` / `AC` / `>2` / `GGG` / `>1` / `TTTT` gives 4, not 2. The converter then writes a header, one `S` line per segment, one `L` line per link and one `P` line per path.

The model follows the Python code line by line:

- Files are sequences of lines, each including its line terminator. Each parser is a fold over the lines (`LineFold.Fold`) with one `Step` per loop iteration.
- Python's exceptions are errors in a `Result`, and each names the line where it happened:
  - `IndexError` on a missing field becomes `MissingField`;
  - `ValueError` from `int()` becomes `BadInteger`;
  - `NameError` for an `o` line before any `P` line becomes `OffsetsBeforePath`;
  - `StopIteration` on an empty sequence table becomes `EmptySequenceTable`.
- Each parser has a declarative definition that reads the file prefix by prefix (`ExpectedLinks`, `ExpectedPaths`, `LastBody`, …). Its `RunMatchesExpected` lemma is the loop invariant tying the fold to that definition.
- The writer is paired with decoders for its own `S`/`L`/`P` lines, and every written line is proved to decode back to the record it came from.

The modules are:

- `Results`: result and option types.
- `Text`: Python's `isspace`, `strip`, `split()`, `split(sep)` and `join`.
- `Decimal`: `str(n)` and `int(s)`.
- `OrderedMap`: a Python `dict` as an insertion-ordered list.
- `LineFold`: the loop.
- `Gbwt`, `Paths`, `Fasta` and `GfaWriter`: the four functions.
- `Converter`: `main`.
- `Examples`: a worked run on small inputs.

Three behaviours of the code are worth knowing:

- **A sequence line before any header.** It is not rejected. The code stores it under the key `None` (`Fasta.NoLabel` here). That entry can become the first entry and so fix the submer size.
- **Tokens kept on `z` and `o` lines.** Only the first two tokens of those lines are dropped. The path file `P x x` / `z x x 1` / `o x x 5` therefore gives the path line `P\t1\tx+,1+\tx,5`, as `Examples.ConvertExample` proves.
- **No header/sequence pairing.** Nothing checks that the table file alternates headers and sequences. Every non-header line overwrites the entry of the current label, so each label keeps its *last* line, as `Fasta.ParseFastaSpec` states. A wrapped multi-line sequence therefore keeps only its last line, and a blank line after a sequence replaces it with the empty string. A file that does alternate headers with distinct integers and sequence lines gives one entry per pair, in file order (`Fasta.ParsePairs`).

## Model

| member | source | states |
|---|---|---|
| Text.Strip | utilities/gfa_converter.py:10 | `strip()` gives the slice between the leading and trailing whitespace. Everything removed is whitespace, and the result neither starts nor ends with whitespace. |
| Text.Split | utilities/gfa_converter.py:10 | every token of `split()` is non-empty and free of whitespace |
| Text.SplitAtSpace | utilities/gfa_converter.py:10 | `split()` on a string cut at any whitespace character is the split of the left part followed by the split of the right part |
| Text.SplitWord | utilities/gfa_converter.py:10 | a lone whitespace-free token splits to itself; with `SplitAtSpace` and the empty string splitting to nothing, this fixes `split()` on every string |
| Text.SplitUnwords | utilities/gfa_converter.py:10 | words joined by single spaces, followed by any whitespace such as a line terminator, split back into exactly those words |
| Text.SplitOnJoin | utilities/gfa_converter.py:63-65 | joining separator-free pieces on a separator, then splitting on it, gives the pieces back |
| Text.JoinSplitOn | utilities/gfa_converter.py:63-65 | splitting on a separator, then joining on it, gives the string back |
| Text.StripIdempotent | utilities/gfa_converter.py:49 | stripping twice removes nothing more than stripping once |
| Decimal.NatToString | utilities/gfa_converter.py:59 | `str(n)` is all ASCII digits, with a leading zero only for 0 itself |
| Decimal.ParseIntOfIntToString | utilities/gfa_converter.py:15-16 | `int(str(i)) == i` for every integer, negatives included |
| Decimal.IntToStringIsWord | utilities/gfa_converter.py:16 | `str(i)` is a single whitespace-free token |
| OrderedMap.GetPut | utilities/gfa_converter.py:51 | after `d[k] = v`, `k` reads `v` and every other key reads what it read before |
| OrderedMap.PutShape | utilities/gfa_converter.py:51 | assignment keeps keys distinct and keeps the first-inserted key first. The dict grows by one entry exactly when the key is new. |
| LineFold.FoldSnoc | utilities/gfa_converter.py:9 | running the loop over one more line is one more step after the run over the earlier lines, and stops at the first error |
| Gbwt.MakeLink | utilities/gfa_converter.py:15-21 | an `E` line links the target's absolute id to the current segment, reversed at the source iff the target is negative. An `e` line links the current segment to the target, reversed at the destination iff the target is negative. The overlap is `submer_size - field`, with no clamping. |
| Gbwt.OutOfIsSwappedInto | utilities/gfa_converter.py:17-19 | an `e` line yields the link of the `E` line with the same fields, with the ends exchanged |
| Gbwt.MakeLinkInvertible | utilities/gfa_converter.py:15-21 | the signed target and the raw overlap field can be recovered from the link |
| Gbwt.DecodeEncodeEdge | utilities/gfa_converter.py:10-20 | an edge line written as `tag target overlap` is read back as exactly those two integers |
| Gbwt.RunMatchesExpected | utilities/gfa_converter.py:4-22 | loop invariant over any prefix: the node counter is the number of `V` lines and the segments are `1..k`. There is one link per edge line, built from that line and the number of `V` lines before it. The run fails iff some edge line does not decode, and reports the first such line. |
| Gbwt.ParseGbwtSpec | utilities/gfa_converter.py:4-22 | `parse_gbwt` succeeds iff every edge line decodes. Its segments are `1..#V` and its links are one per edge line in file order. Otherwise it returns the first bad line's error. |
| Gbwt.ExpectedLinksCount | utilities/gfa_converter.py:14-21 | exactly one link per `E`/`e` line |
| Paths.Orient | utilities/gfa_converter.py:36 | the rewritten token ends in `-` iff the token starts with `-`, and ends in `+` otherwise |
| Paths.UnorientOrient | utilities/gfa_converter.py:36 | the rewrite from signed to suffix notation loses nothing: the token can be recovered |
| Paths.OrientAll | utilities/gfa_converter.py:36 | the list comprehension rewrites every token into suffix notation: each result ends in `-` iff its token starts with `-` and in `+` otherwise, each token can be recovered from its result, and count and order are kept |
| Paths.RunMatchesExpected | utilities/gfa_converter.py:24-41 | loop invariant over any prefix: the counter is the number of `P` lines and the buffer is the last `z` rewrite since the last `P`. There is one record per `o` line. The run fails iff an `o` line precedes every `P` line, and reports the first such line. |
| Paths.ParsePathsSpec | utilities/gfa_converter.py:24-41 | `parse_paths` succeeds iff no `o` line precedes every `P` line, and then yields exactly the expected records. Otherwise it returns the first offending line. |
| Paths.ExpectedPathsCount | utilities/gfa_converter.py:37-40 | exactly one record per `o` line |
| Paths.NoOffsetsNoRecords | utilities/gfa_converter.py:29-40 | lines without an `o` line add no record, so a `P`/`z` group with no later `o` line is dropped |
| Paths.ExpectedPathsShape | utilities/gfa_converter.py:29-40 | record ids lie in `1..#P` and never decrease, and every node reference carries a `+`/`-` suffix |
| Fasta.RunMatchesExpected | utilities/gfa_converter.py:43-52 | loop invariant over any prefix: the current label is the last header's and keys are distinct. Each label reads the stripped last line stored under it. The first entry belongs to the first stored line. The run fails iff some header has no integer, and reports the first. |
| Fasta.ParseFastaSpec | utilities/gfa_converter.py:43-52 | `parse_fasta` succeeds iff every header carries an integer. Then each label maps to the stripped text of the last non-header line read under it. Otherwise it returns the first bad header's error. |
| Fasta.HeaderLineLabel | utilities/gfa_converter.py:48-49 | the header line `>k` written with `str(k)` is read back as the label `k`, negatives included |
| Fasta.ParsePairs | utilities/gfa_converter.py:43-52 | a file alternating headers with distinct integers and sequence lines that do not start with `>` parses to exactly one entry per pair, in file order. Each integer reads its stripped sequence line, and the first pair's text fixes the submer size. |
| Fasta.SubmerSizeSpec | utilities/gfa_converter.py:78 | the submer size is the length of the text last stored under the label of the first stored line. With no stored line, the size is the empty-table error. |
| GfaWriter.WriteGfa | utilities/gfa_converter.py:54-65 | the file is the header, then the `S`, `L` and `P` lines in list order, one line per record |
| GfaWriter.SegmentLineRoundTrip | utilities/gfa_converter.py:58-59 | an `S` line reads back as its segment id and its sequence or `*` |
| GfaWriter.LinkLineRoundTrip | utilities/gfa_converter.py:61 | an `L` line reads back as exactly its link: ids, orientations and the `<n>M` overlap, negative overlaps included |
| GfaWriter.PathLineRoundTrip | utilities/gfa_converter.py:62-65 | a `P` line reads back as exactly its path id, node list and offset list |
| GfaWriter.WriteGfaRoundTrip | utilities/gfa_converter.py:54-65 | the whole file reads back as the header, then each segment with its sequence or `*`, each link and each path, in order |
| Converter.ConvertFails | utilities/gfa_converter.py:76-84 | the run succeeds iff every header is well formed, some sequence line is stored, every edge line decodes, and no `o` line precedes every `P` line. Failures are reported in call order: the sequence table's error, then the empty table, then the graph file's error, then the path file's error. |
| Converter.ConvertOutput | utilities/gfa_converter.py:76-84 | a successful run writes segments `1..#V`, one link per edge line with the overlap taken from the submer size, one path per `o` line, and sequences from the parsed table |
| Converter.ConvertLineCount | utilities/gfa_converter.py:76-84 | a successful run writes the header plus one line per `V` line, per `E`/`e` line and per `o` line |
| Examples.ConvertExample | utilities/gfa_converter.py:76-84 | the worked run writes exactly `H`, `S 1 ACGT`, `L 2 + 1 + 3M` and `P 1 x+,1+ x,5`, tab-separated |
| Examples.FastaExample | utilities/gfa_converter.py:43-52 | `>1` / `ACGT` gives the table `{1: "ACGT"}` |
| Examples.GbwtExample | utilities/gfa_converter.py:4-22 | `V` / `E 2 1` with submer size 4 gives segment 1 and the link `2+ -> 1+` with overlap 3 |
| Examples.PathsExample | utilities/gfa_converter.py:24-41 | `P x x` / `z x x 1` / `o x x 5` gives path 1 with nodes `x+, 1+` and offsets `x, 5` |

## Left out

- File access, `argparse`, the progress `print`s and the `__main__` guard are left out. Files arrive as their lines, and the output is its lines without the trailing `\n`.
- Decimal.ParseInt accepts only an optional sign and ASCII digits after stripping. Python's `int()` also accepts `_` between digits and non-ASCII Unicode digits; those inputs are rejected here. CPython 3.11 and later also refuse to convert between strings and integers of more than 4300 digits (`int()` and `str()` raise `ValueError`); the model has no such limit and accepts those strings.
- Error values carry the line index and the failing token, not Python's exception classes or messages.
- `parse_paths` also resets an `offsets` buffer on each `P` line. It is always overwritten by the `o` line that reads it, so it is not part of the state.
- In the code, a link's signed end is the string `str(abs(int(token)))`. The model stores it as a natural number, which writes to the same text.
- GfaWriter.SegmentLineRoundTrip: requires the sequence to contain no tab, because the writer does no escaping and a tab inside a sequence would add a field.
- GfaWriter.PathLineRoundTrip: requires node references and offsets to be non-empty and free of commas and tabs, for the same reason. An empty list element cannot be told apart from a missing one.
- GfaWriter.WriteGfaRoundTrip: carries the same two requirements for every segment and path.
