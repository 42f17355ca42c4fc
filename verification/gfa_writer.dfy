/** `write_gfa`: the parsed structures serialised as GFA 1.0 lines.

    The output is the header line, then one `S` line per segment, one `L`
    line per link and one `P` line per path, each in the order of its list,
    fields separated by tabs. Lines are returned without their trailing
    newline. The decoders below read a line back into the record it was
    written from; they exist to state what each line says.
 */
module GfaWriter {
  import opened Results
  import opened Text
  import opened Decimal
  import opened OrderedMap
  import opened Gbwt
  import opened Paths
  import Fasta

  const Header: string := "H\tVN:Z:1.0"

  function OrientationText(o: Orientation): string {
    match o
    case Forward => "+"
    case Reverse => "-"
  }

  /** `sequences.get(seg["id"], "*")`. */
  function SequenceOrStar(table: Fasta.Table, id: nat): (s: string)
    ensures Get(table, Fasta.Label(id)).None? ==> s == "*"
    ensures Get(table, Fasta.Label(id)).Some? ==> s == Get(table, Fasta.Label(id)).value
  {
    match Get(table, Fasta.Label(id))
    case Some(v) => v
    case None => "*"
  }

  function SegmentLine(s: Segment, table: Fasta.Table): string {
    Join(["S", NatToString(s.id), SequenceOrStar(table, s.id)], '\t')
  }

  /** The six fields of an `L` line. */
  function LinkFields(l: Link): seq<string> {
    ["L", NatToString(l.from), OrientationText(l.fromDir), NatToString(l.to),
     OrientationText(l.toDir), IntToString(l.overlap) + "M"]
  }

  function LinkLine(l: Link): string {
    Join(LinkFields(l), '\t')
  }

  function PathLine(p: PathRecord): string {
    Join(["P", NatToString(p.id), Join(p.sequence, ','), Join(p.offsets, ',')], '\t')
  }

  function SegmentLines(segments: seq<Segment>, table: Fasta.Table): (r: seq<string>)
    ensures |r| == |segments|
    ensures forall i :: 0 <= i < |segments| ==> r[i] == SegmentLine(segments[i], table)
  {
    seq(|segments|, (i: nat) requires i < |segments| => SegmentLine(segments[i], table))
  }

  function LinkLines(links: seq<Link>): (r: seq<string>)
    ensures |r| == |links|
    ensures forall i :: 0 <= i < |links| ==> r[i] == LinkLine(links[i])
  {
    seq(|links|, (i: nat) requires i < |links| => LinkLine(links[i]))
  }

  function PathLines(paths: seq<PathRecord>): (r: seq<string>)
    ensures |r| == |paths|
    ensures forall i :: 0 <= i < |paths| ==> r[i] == PathLine(paths[i])
  {
    seq(|paths|, (i: nat) requires i < |paths| => PathLine(paths[i]))
  }

  /** The whole output file, line by line. */
  function WriteGfa(segments: seq<Segment>, links: seq<Link>, paths: seq<PathRecord>, table: Fasta.Table): (out: seq<string>)
    ensures |out| == 1 + |segments| + |links| + |paths|
    ensures out[0] == Header
    ensures forall i :: 0 <= i < |segments| ==> out[1 + i] == SegmentLine(segments[i], table)
    ensures forall i :: 0 <= i < |links| ==> out[1 + |segments| + i] == LinkLine(links[i])
    ensures forall i :: 0 <= i < |paths| ==> out[1 + |segments| + |links| + i] == PathLine(paths[i])
  {
    var s, l, p := SegmentLines(segments, table), LinkLines(links), PathLines(paths);
    var out := [Header] + s + l + p;
    assert forall i :: 0 <= i < |s| ==> out[1 + i] == s[i];
    assert forall i :: 0 <= i < |l| ==> out[1 + |s| + i] == l[i];
    assert forall i :: 0 <= i < |p| ==> out[1 + |s| + |l| + i] == p[i];
    out
  }

  // ---------------------------------------------------------------------
  // Reading lines back.

  function DecodeOrientation(s: string): Option<Orientation> {
    if s == "+" then Some(Forward) else if s == "-" then Some(Reverse) else None
  }

  lemma {:induction false} OrientationRoundTrip(o: Orientation)
    ensures DecodeOrientation(OrientationText(o)) == Some(o)
  {
  }

  /** An overlap written as a CIGAR string of one match operation, `<n>M`. */
  function DecodeOverlap(s: string): Option<int> {
    if |s| > 0 && s[|s| - 1] == 'M' then ParseInt(s[..|s| - 1]) else None
  }

  /** A comma-joined list; the empty field is the empty list. */
  function DecodeList(s: string): seq<string> {
    if s == "" then [] else SplitOn(s, ',')
  }

  /** An `S` line as its segment id and its sequence field. */
  function DecodeSegmentLine(line: string): Option<(nat, string)> {
    var f := SplitOn(line, '\t');
    if |f| == 3 && f[0] == "S" then
      match ParseNat(f[1])
      case Some(id) => Some((id, f[2]))
      case None => None
    else None
  }

  function DecodeLinkLine(line: string): Option<Link> {
    var f := SplitOn(line, '\t');
    if |f| == 6 && f[0] == "L" then
      match (ParseNat(f[1]), DecodeOrientation(f[2]), ParseNat(f[3]), DecodeOrientation(f[4]), DecodeOverlap(f[5]))
      case (Some(from), Some(fromDir), Some(to), Some(toDir), Some(overlap)) =>
        Some(Link(from, fromDir, to, toDir, overlap))
      case _ => None
    else None
  }

  function DecodePathLine(line: string): Option<PathRecord> {
    var f := SplitOn(line, '\t');
    if |f| == 4 && f[0] == "P" then
      match ParseNat(f[1])
      case Some(id) => Some(PathRecord(id, DecodeList(f[2]), DecodeList(f[3])))
      case None => None
    else None
  }

  lemma {:induction false} DigitsExclude(n: nat, c: char)
    requires !IsDigit(c)
    ensures Excludes(NatToString(n), c)
  {
    var s := NatToString(n);
    assert forall i :: 0 <= i < |s| ==> IsDigit(s[i]);
  }

  /** An `S` line names its segment and carries the table's sequence for it,
      or `*` when the table has none, provided that sequence has no tab. */
  lemma {:induction false} SegmentLineRoundTrip(s: Segment, table: Fasta.Table)
    requires Excludes(SequenceOrStar(table, s.id), '\t')
    ensures DecodeSegmentLine(SegmentLine(s, table)) == Some((s.id, SequenceOrStar(table, s.id)))
  {
    var fields := ["S", NatToString(s.id), SequenceOrStar(table, s.id)];
    DigitsExclude(s.id, '\t');
    SplitOnJoin(fields, '\t');
    ParseNatOfNatToString(s.id);
  }

  lemma {:induction false} OverlapRoundTrip(overlap: int)
    ensures DecodeOverlap(IntToString(overlap) + "M") == Some(overlap)
  {
    var s := IntToString(overlap) + "M";
    assert s[..|s| - 1] == IntToString(overlap);
    ParseIntOfIntToString(overlap);
  }

  /** No field of an `L` line contains a tab, so the line splits into them. */
  lemma {:induction false} LinkLineSplits(l: Link)
    ensures SplitOn(LinkLine(l), '\t') == LinkFields(l)
  {
    var fields := LinkFields(l);
    DigitsExclude(l.from, '\t');
    DigitsExclude(l.to, '\t');
    IntToStringExcludes(l.overlap, '\t');
    assert Excludes(fields[5], '\t');
    SplitOnJoin(fields, '\t');
  }

  /** Every link is read back from its `L` line exactly. */
  lemma {:induction false} LinkLineRoundTrip(l: Link)
    ensures DecodeLinkLine(LinkLine(l)) == Some(l)
  {
    var f := LinkFields(l);
    LinkLineSplits(l);
    ParseNatOfNatToString(l.from);
    ParseNatOfNatToString(l.to);
    OverlapRoundTrip(l.overlap);
    OrientationRoundTrip(l.fromDir);
    OrientationRoundTrip(l.toDir);
  }

  /** A list element that survives comma-joining inside a tab-separated line. */
  predicate ListItem(s: string) {
    |s| > 0 && Excludes(s, ',') && Excludes(s, '\t')
  }

  lemma {:induction false} ListRoundTrip(xs: seq<string>)
    requires forall i :: 0 <= i < |xs| ==> ListItem(xs[i])
    ensures DecodeList(Join(xs, ',')) == xs
    ensures Excludes(Join(xs, ','), '\t')
  {
    JoinExcludes(xs, ',', '\t');
    if |xs| > 0 {
      SplitOnJoin(xs, ',');
      assert Join(xs, ',') != "" by {
        if |xs| > 1 {
          assert Join(xs, ',')[0] == xs[0][0];
        }
      }
    }
  }

  /** Every path is read back from its `P` line exactly, provided its node
      references and offsets are non-empty and contain no comma or tab. */
  lemma {:induction false} PathLineRoundTrip(p: PathRecord)
    requires forall i :: 0 <= i < |p.sequence| ==> ListItem(p.sequence[i])
    requires forall i :: 0 <= i < |p.offsets| ==> ListItem(p.offsets[i])
    ensures DecodePathLine(PathLine(p)) == Some(p)
  {
    var fields := ["P", NatToString(p.id), Join(p.sequence, ','), Join(p.offsets, ',')];
    DigitsExclude(p.id, '\t');
    ListRoundTrip(p.sequence);
    ListRoundTrip(p.offsets);
    SplitOnJoin(fields, '\t');
    ParseNatOfNatToString(p.id);
  }

  /** The output file read back: the header, then each segment with the
      table's sequence for its id or `*` when there is none, each link, and
      each path, in the order given. */
  lemma {:induction false} WriteGfaRoundTrip(segments: seq<Segment>, links: seq<Link>, paths: seq<PathRecord>, table: Fasta.Table)
    requires forall i :: 0 <= i < |segments| ==> Excludes(SequenceOrStar(table, segments[i].id), '\t')
    requires forall i, n :: 0 <= i < |paths| && 0 <= n < |paths[i].sequence| ==> ListItem(paths[i].sequence[n])
    requires forall i, n :: 0 <= i < |paths| && 0 <= n < |paths[i].offsets| ==> ListItem(paths[i].offsets[n])
    ensures var out := WriteGfa(segments, links, paths, table);
      && |out| == 1 + |segments| + |links| + |paths|
      && out[0] == Header
      && (forall i :: 0 <= i < |segments| && Get(table, Fasta.Label(segments[i].id)).Some? ==>
            DecodeSegmentLine(out[1 + i]) == Some((segments[i].id, Get(table, Fasta.Label(segments[i].id)).value)))
      && (forall i :: 0 <= i < |segments| && Get(table, Fasta.Label(segments[i].id)).None? ==>
            DecodeSegmentLine(out[1 + i]) == Some((segments[i].id, "*")))
      && (forall i :: 0 <= i < |links| ==> DecodeLinkLine(out[1 + |segments| + i]) == Some(links[i]))
      && (forall i :: 0 <= i < |paths| ==> DecodePathLine(out[1 + |segments| + |links| + i]) == Some(paths[i]))
  {
    forall i | 0 <= i < |segments| {
      SegmentLineRoundTrip(segments[i], table);
    }
    forall i | 0 <= i < |links| {
      LinkLineRoundTrip(links[i]);
    }
    forall i | 0 <= i < |paths| {
      PathLineRoundTrip(paths[i]);
    }
  }
}
