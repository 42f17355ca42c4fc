/** The handful of Python `str` operations the converter relies on:
    `startswith` with a one-character prefix, `strip()`, `split()` with no
    argument (runs of whitespace), `split(sep)` and `sep.join(...)`.
 */
module Text {

  /** The characters for which Python's `str.isspace` holds. */
  const SpaceChars: set<char> := {'\t', '\n', '\U{B}', '\U{C}', '\r', '\U{1C}', '\U{1D}', '\U{1E}', '\U{1F}', ' ', '\U{85}', '\U{A0}', '\U{1680}', '\U{2000}', '\U{2001}', '\U{2002}', '\U{2003}', '\U{2004}', '\U{2005}', '\U{2006}', '\U{2007}', '\U{2008}', '\U{2009}', '\U{200A}', '\U{2028}', '\U{2029}', '\U{202F}', '\U{205F}', '\U{3000}'}

  /** Python's `str.isspace` on one character. */
  predicate IsSpace(c: char) {
    c in SpaceChars
  }

  /** `s.startswith(c)` for a one-character prefix. */
  predicate StartsWith(s: string, c: char) {
    |s| > 0 && s[0] == c
  }

  /** A token that `split()` can produce: non-empty and free of whitespace. */
  predicate IsWord(w: string) {
    |w| > 0 && forall i :: 0 <= i < |w| ==> !IsSpace(w[i])
  }

  predicate Excludes(s: string, c: char) {
    forall i :: 0 <= i < |s| ==> s[i] != c
  }

  /** Number of whitespace characters `s` starts with. */
  function LeadingSpaces(s: string): (n: nat)
    ensures n <= |s|
    ensures forall i :: 0 <= i < n ==> IsSpace(s[i])
    ensures n < |s| ==> !IsSpace(s[n])
  {
    if |s| > 0 && IsSpace(s[0]) then 1 + LeadingSpaces(s[1..]) else 0
  }

  /** Number of whitespace characters `s` ends with. */
  function TrailingSpaces(s: string): (n: nat)
    ensures n <= |s|
    ensures forall i :: |s| - n <= i < |s| ==> IsSpace(s[i])
    ensures n < |s| ==> !IsSpace(s[|s| - n - 1])
  {
    if |s| > 0 && IsSpace(s[|s| - 1]) then 1 + TrailingSpaces(s[..|s| - 1]) else 0
  }

  /** `s.lstrip()`. */
  function TrimStart(s: string): string {
    s[LeadingSpaces(s)..]
  }

  /** `s.strip()`: the slice of `s` between its leading and its trailing
      whitespace; every character outside the slice is whitespace, and the
      slice neither starts nor ends with whitespace. */
  function Strip(s: string): (r: string)
    ensures LeadingSpaces(s) + |r| <= |s|
    ensures r == s[LeadingSpaces(s)..LeadingSpaces(s) + |r|]
    ensures forall i :: LeadingSpaces(s) + |r| <= i < |s| ==> IsSpace(s[i])
    ensures r == [] || (!IsSpace(r[0]) && !IsSpace(r[|r| - 1]))
  {
    var t := TrimStart(s);
    t[..|t| - TrailingSpaces(t)]
  }

  /** Stripping twice removes nothing more. This is why `Fasta.HeaderLabel`
      strips once where `int(line[1:].strip())` strips twice. */
  lemma {:induction false} StripIdempotent(s: string)
    ensures Strip(Strip(s)) == Strip(s)
  {
    var r := Strip(s);
    assert LeadingSpaces(r) == 0;
    assert TrailingSpaces(r) == 0;
  }

  /** A line terminator is stripped off text that neither starts nor ends
      with whitespace. */
  lemma {:induction false} StripNewline(line: string, text: string)
    requires line == text + "\n"
    requires |text| > 0 && !IsSpace(text[0]) && !IsSpace(text[|text| - 1])
    ensures Strip(line) == text
  {
    assert LeadingSpaces(line) == 0;
    assert TrailingSpaces(line) == 1 by {
      assert line[|line| - 1] == '\n';
      assert TrailingSpaces(line[..|line| - 1]) == 0 by {
        assert line[..|line| - 1] == text;
      }
    }
  }

  /** Length of the longest whitespace-free prefix of `s`. */
  function WordLength(s: string): (n: nat)
    ensures n <= |s|
    ensures forall i :: 0 <= i < n ==> !IsSpace(s[i])
    ensures n < |s| ==> IsSpace(s[n])
  {
    if |s| == 0 || IsSpace(s[0]) then 0 else 1 + WordLength(s[1..])
  }

  /** `s.split()`: the maximal runs of non-whitespace characters, in order. */
  function Split(s: string): (r: seq<string>)
    ensures forall i :: 0 <= i < |r| ==> IsWord(r[i])
    decreases |s|
  {
    var t := TrimStart(s);
    if t == [] then []
    else
      var n := WordLength(t);
      [t[..n]] + Split(t[n..])
  }

  /** `sep.join(xs)`. */
  function Join(xs: seq<string>, sep: char): string {
    if |xs| == 0 then ""
    else if |xs| == 1 then xs[0]
    else xs[0] + [sep] + Join(xs[1..], sep)
  }

  /** Index of the first `c` in `s`, or `|s|` when there is none. */
  function IndexOf(s: string, c: char): (i: nat)
    ensures i <= |s|
    ensures forall j :: 0 <= j < i ==> s[j] != c
    ensures i < |s| ==> s[i] == c
  {
    if |s| == 0 || s[0] == c then 0 else 1 + IndexOf(s[1..], c)
  }

  /** `s.split(sep)`: the pieces between occurrences of `sep`; never empty. */
  function SplitOn(s: string, sep: char): (r: seq<string>)
    ensures |r| >= 1
    ensures forall i :: 0 <= i < |r| ==> Excludes(r[i], sep)
    decreases |s|
  {
    var i := IndexOf(s, sep);
    if i == |s| then [s] else [s[..i]] + SplitOn(s[i + 1..], sep)
  }

  lemma {:induction false} IndexOfAfter(a: string, sep: char, b: string)
    requires Excludes(a, sep)
    ensures IndexOf(a + [sep] + b, sep) == |a|
    decreases |a|
  {
    if |a| > 0 {
      IndexOfAfter(a[1..], sep, b);
      assert (a + [sep] + b)[1..] == a[1..] + [sep] + b;
    }
  }

  lemma {:induction false} IndexOfAbsent(s: string, sep: char)
    requires Excludes(s, sep)
    ensures IndexOf(s, sep) == |s|
  {
  }

  /** A piece without `sep`, then `sep`: the piece is the first of the split. */
  lemma {:induction false} SplitOnCons(a: string, sep: char, b: string)
    requires Excludes(a, sep)
    ensures SplitOn(a + [sep] + b, sep) == [a] + SplitOn(b, sep)
  {
    var s := a + [sep] + b;
    IndexOfAfter(a, sep, b);
    assert s[..|a|] == a;
    assert s[|a| + 1..] == b;
  }

  /** Joining on `sep` pieces that do not contain `sep`, then splitting on
      `sep`, gives the pieces back. */
  lemma {:induction false} SplitOnJoin(xs: seq<string>, sep: char)
    requires |xs| >= 1
    requires forall i :: 0 <= i < |xs| ==> Excludes(xs[i], sep)
    ensures SplitOn(Join(xs, sep), sep) == xs
    decreases |xs|
  {
    if |xs| == 1 {
      IndexOfAbsent(xs[0], sep);
    } else {
      assert Join(xs, sep) == xs[0] + [sep] + Join(xs[1..], sep);
      SplitOnCons(xs[0], sep, Join(xs[1..], sep));
      assert forall i :: 0 <= i < |xs[1..]| ==> xs[1..][i] == xs[i + 1];
      SplitOnJoin(xs[1..], sep);
      assert [xs[0]] + xs[1..] == xs;
    }
  }

  /** Splitting on `sep` and joining on `sep` gives the string back. */
  lemma {:induction false} JoinSplitOn(s: string, sep: char)
    ensures Join(SplitOn(s, sep), sep) == s
    decreases |s|
  {
    var i := IndexOf(s, sep);
    if i < |s| {
      var tail := SplitOn(s[i + 1..], sep);
      JoinSplitOn(s[i + 1..], sep);
      var r := [s[..i]] + tail;
      assert r[1..] == tail;
      assert Join(r, sep) == s[..i] + [sep] + s[i + 1..];
      assert s == s[..i] + [s[i]] + s[i + 1..];
    }
  }

  /** A joined list has `c` nowhere when neither the pieces nor the separator do. */
  lemma {:induction false} JoinExcludes(xs: seq<string>, sep: char, c: char)
    requires sep != c
    requires forall i :: 0 <= i < |xs| ==> Excludes(xs[i], c)
    ensures Excludes(Join(xs, sep), c)
    decreases |xs|
  {
    if |xs| > 1 {
      JoinExcludes(xs[1..], sep, c);
    }
  }

  lemma {:induction false} SplitLeadingSpace(c: char, s: string)
    requires IsSpace(c)
    ensures Split([c] + s) == Split(s)
  {
    assert ([c] + s)[1..] == s;
  }

  lemma {:induction false} WordLengthOf(w: string, rest: string)
    requires forall i :: 0 <= i < |w| ==> !IsSpace(w[i])
    requires rest == [] || IsSpace(rest[0])
    ensures WordLength(w + rest) == |w|
    decreases |w|
  {
    if |w| > 0 {
      WordLengthOf(w[1..], rest);
      assert (w + rest)[1..] == w[1..] + rest;
    }
  }

  /** A word followed by nothing or by whitespace is split off whole. */
  lemma {:induction false} SplitWordThen(w: string, rest: string)
    requires IsWord(w)
    requires rest == [] || IsSpace(rest[0])
    ensures Split(w + rest) == [w] + Split(rest)
  {
    var s := w + rest;
    assert LeadingSpaces(s) == 0;
    assert TrimStart(s) == s;
    WordLengthOf(w, rest);
    assert s[..|w|] == w;
    assert s[|w|..] == rest;
  }

  /** A string of whitespace alone has no tokens. */
  lemma {:induction false} SplitAllSpace(s: string)
    requires forall i :: 0 <= i < |s| ==> IsSpace(s[i])
    ensures Split(s) == []
  {
  }

  lemma {:induction false} JoinThen(ws: seq<string>, tail: string)
    requires |ws| > 1
    ensures Join(ws, ' ') + tail == ws[0] + ([' '] + (Join(ws[1..], ' ') + tail))
  {
    assert Join(ws, ' ') == ws[0] + [' '] + Join(ws[1..], ' ');
  }

  /** A word followed by whitespace alone is the only token. */
  lemma {:induction false} SplitLastWord(w: string, tail: string)
    requires IsWord(w)
    requires forall i :: 0 <= i < |tail| ==> IsSpace(tail[i])
    ensures Split(w + tail) == [w]
  {
    SplitWordThen(w, tail);
    SplitAllSpace(tail);
  }

  /** A lone word is its own only token. */
  lemma {:induction false} SplitWord(w: string)
    requires IsWord(w)
    ensures Split(w) == [w]
  {
    SplitLastWord(w, "");
    assert w + "" == w;
  }

  lemma {:induction false} SplitDropSpace(s: string)
    requires |s| > 0 && IsSpace(s[0])
    ensures Split(s) == Split(s[1..])
  {
    assert s == [s[0]] + s[1..];
    SplitLeadingSpace(s[0], s[1..]);
  }

  /** Sequence bookkeeping for `SplitAtSpaceSkip`. */
  lemma {:induction false} TailAround(a: string, c: char, b: string)
    requires |a| > 0
    ensures (a + [c] + b)[0] == a[0]
    ensures (a + [c] + b)[1..] == a[1..] + [c] + b
  {
  }

  /** Leading whitespace of the left part is dropped on both sides of `SplitAtSpace`. */
  lemma {:induction false} SplitAtSpaceSkip(a: string, c: char, b: string)
    requires |a| > 0 && IsSpace(a[0])
    ensures Split(a + [c] + b) == Split(a[1..] + [c] + b)
    ensures Split(a) == Split(a[1..])
  {
    TailAround(a, c, b);
    SplitDropSpace(a + [c] + b);
    SplitDropSpace(a);
  }

  /** A left part that is one word ends at the whitespace character. */
  lemma {:induction false} SplitAtSpaceWord(a: string, c: char, b: string)
    requires IsWord(a) && IsSpace(c)
    ensures Split(a + [c] + b) == Split(a) + Split(b)
  {
    assert a + [c] + b == a + ([c] + b);
    SplitWordThen(a, [c] + b);
    SplitLeadingSpace(c, b);
    SplitWord(a);
  }

  /** Sequence bookkeeping for `SplitAtSpaceShed`. */
  lemma {:induction false} Regroup(w: string, rest: string, c: char, b: string)
    requires |rest| > 0
    ensures w + rest + [c] + b == w + (rest + [c] + b)
    ensures (rest + [c] + b)[0] == rest[0]
  {
  }

  /** A left part that starts with a word followed by whitespace sheds that
      word on both sides. */
  lemma {:induction false} SplitAtSpaceShed(w: string, rest: string, c: char, b: string)
    requires IsWord(w) && |rest| > 0 && IsSpace(rest[0])
    requires Split(rest + [c] + b) == Split(rest) + Split(b)
    ensures Split(w + rest + [c] + b) == Split(w + rest) + Split(b)
  {
    var t := rest + [c] + b;
    Regroup(w, rest, c, b);
    calc {
      Split(w + rest + [c] + b);
      Split(w + t);
      { SplitWordThen(w, t); }
      [w] + Split(t);
      [w] + (Split(rest) + Split(b));
      ([w] + Split(rest)) + Split(b);
      { SplitWordThen(w, rest); }
      Split(w + rest) + Split(b);
    }
  }

  /** Splitting at any whitespace character splits the token list there:
      with `Split("") == []` and `SplitWord`, this determines `split()`. */
  lemma {:induction false} SplitAtSpace(a: string, c: char, b: string)
    requires IsSpace(c)
    ensures Split(a + [c] + b) == Split(a) + Split(b)
    decreases |a|
  {
    if |a| == 0 {
      assert a + [c] + b == [c] + b;
      SplitLeadingSpace(c, b);
    } else if IsSpace(a[0]) {
      SplitAtSpace(a[1..], c, b);
      SplitAtSpaceSkip(a, c, b);
    } else {
      var n := WordLength(a);
      if n == |a| {
        assert a[..n] == a;
        SplitAtSpaceWord(a, c, b);
      } else {
        var w, rest := a[..n], a[n..];
        assert a == w + rest;
        SplitAtSpace(rest, c, b);
        SplitAtSpaceShed(w, rest, c, b);
      }
    }
  }

  /** A word, a space, and the rest: the word is the first token. */
  lemma {:induction false} SplitCons(w: string, after: string)
    requires IsWord(w)
    ensures Split(w + ([' '] + after)) == [w] + Split(after)
  {
    SplitWordThen(w, [' '] + after);
    SplitLeadingSpace(' ', after);
  }

  lemma {:induction false} WordsTail(ws: seq<string>)
    requires |ws| > 0
    requires forall i :: 0 <= i < |ws| ==> IsWord(ws[i])
    ensures IsWord(ws[0])
    ensures forall i :: 0 <= i < |ws[1..]| ==> IsWord(ws[1..][i])
  {
    forall i | 0 <= i < |ws[1..]| ensures IsWord(ws[1..][i]) {
      assert ws[1..][i] == ws[i + 1];
    }
  }

  /** `' '.join(ws)`, followed by any run of whitespace such as a line's
      terminator, splits back into `ws` when every element is a word. */
  lemma {:induction false} SplitUnwords(ws: seq<string>, tail: string)
    requires forall i :: 0 <= i < |ws| ==> IsWord(ws[i])
    requires forall i :: 0 <= i < |tail| ==> IsSpace(tail[i])
    ensures Split(Join(ws, ' ') + tail) == ws
    decreases |ws|
  {
    if |ws| == 0 {
      assert Join(ws, ' ') + tail == tail;
      SplitAllSpace(tail);
    } else if |ws| == 1 {
      SplitLastWord(ws[0], tail);
    } else {
      JoinThen(ws, tail);
      WordsTail(ws);
      SplitCons(ws[0], Join(ws[1..], ' ') + tail);
      SplitUnwords(ws[1..], tail);
      assert [ws[0]] + ws[1..] == ws;
    }
  }
}
