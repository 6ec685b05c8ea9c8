/**
 * The string operations of Rust's `str` that the puzzle solvers rely on,
 * over `seq<char>`: `split`, `lines`, `split_once`, `trim` and
 * `split_whitespace`.
 */
module Text {
  import opened Wrappers

  /** `char::is_ascii_whitespace`: space, tab, line feed, carriage return and form feed (U+000C). */
  predicate IsWhitespace(c: char) {
    c == ' ' || c == '\t' || c == '\n' || c == '\r' || c == 12 as char
  }

  predicate NoWhitespace(s: string) {
    forall i :: 0 <= i < |s| ==> !IsWhitespace(s[i])
  }

  // ---------------------------------------------------------------------
  // split(sep)

  /** `s.split(sep)`: the pieces between separators, in order; never empty. */
  function Split(s: string, sep: char): (parts: seq<string>)
    ensures |parts| >= 1
    ensures forall i :: 0 <= i < |parts| ==> sep !in parts[i]
  {
    if s == [] then [[]]
    else
      var rest := Split(s[1..], sep);
      if s[0] == sep then [[]] + rest
      else [[s[0]] + rest[0]] + rest[1..]
  }

  /** The pieces put back together with the separator between them. */
  function Join(parts: seq<string>, sep: char): string
    requires |parts| >= 1
  {
    if |parts| == 1 then parts[0] else parts[0] + [sep] + Join(parts[1..], sep)
  }

  /** Splitting loses nothing: joining the pieces gives the string back. */
  lemma {:induction false} JoinSplit(s: string, sep: char)
    ensures Join(Split(s, sep), sep) == s
  {
    if s != [] {
      var rest := Split(s[1..], sep);
      JoinSplit(s[1..], sep);
      if s[0] == sep {
        assert Split(s, sep)[1..] == rest;
      } else {
        var parts := Split(s, sep);
        if |rest| == 1 {
          assert parts == [[s[0]] + rest[0]];
        } else {
          assert parts[1..] == rest[1..];
          assert Join(rest, sep) == rest[0] + [sep] + Join(rest[1..], sep);
        }
      }
    }
  }

  /** A piece that holds no separator is split off whole. */
  lemma {:induction false} SplitPrefix(w: string, t: string, sep: char)
    requires sep !in w
    ensures Split(w + t, sep) == [w + Split(t, sep)[0]] + Split(t, sep)[1..]
  {
    if w != [] {
      assert (w + t)[1..] == w[1..] + t;
      SplitPrefix(w[1..], t, sep);
      assert [w[0]] + (w[1..] + Split(t, sep)[0]) == w + Split(t, sep)[0];
    } else {
      assert w + t == t;
      var parts := Split(t, sep);
      assert [] + parts[0] == parts[0];
      assert parts == [parts[0]] + parts[1..];
    }
  }

  /** Splitting recovers pieces that hold no separator. */
  lemma {:induction false} SplitJoin(parts: seq<string>, sep: char)
    requires |parts| >= 1
    requires forall i :: 0 <= i < |parts| ==> sep !in parts[i]
    ensures Split(Join(parts, sep), sep) == parts
  {
    if |parts| == 1 {
      SplitPrefix(parts[0], [], sep);
      assert parts[0] + [] == parts[0];
    } else {
      var rest := Join(parts[1..], sep);
      SplitJoin(parts[1..], sep);
      assert Join(parts, sep) == parts[0] + ([sep] + rest);
      SplitPrefix(parts[0], [sep] + rest, sep);
      assert ([sep] + rest)[1..] == rest;
      assert Split([sep] + rest, sep) == [[]] + Split(rest, sep);
      assert parts[0] + [] == parts[0];
      assert parts == [parts[0]] + parts[1..];
    }
  }

  // ---------------------------------------------------------------------
  // lines()

  /** A line ending "\r\n" loses its '\r' together with its '\n'. */
  function StripCarriageReturn(line: string): string {
    if |line| > 0 && line[|line| - 1] == '\r' then line[..|line| - 1] else line
  }

  /**
   * `s.lines()`: the text between '\n' characters, each line that ended in
   * "\r\n" without its '\r', and no empty line after a final '\n'.
   */
  function Lines(s: string): (lines: seq<string>)
    ensures forall i :: 0 <= i < |lines| ==> '\n' !in lines[i]
  {
    var parts := Split(s, '\n');
    var ended := EndedLines(parts[..|parts| - 1]);
    if parts[|parts| - 1] == [] then ended else ended + [parts[|parts| - 1]]
  }

  /** The pieces that a '\n' ended, each without the '\r' of a "\r\n". */
  function EndedLines(parts: seq<string>): (lines: seq<string>)
    ensures |lines| == |parts|
    ensures forall i :: 0 <= i < |parts| ==> lines[i] == StripCarriageReturn(parts[i])
    ensures forall i :: 0 <= i < |parts| ==> '\n' !in parts[i] ==> '\n' !in lines[i]
  {
    seq(|parts|, i requires 0 <= i < |parts| => StripCarriageReturn(parts[i]))
  }

  /** A line that can be written followed by a '\n' and read back by `lines()`. */
  predicate IsPlainLine(line: string) {
    '\n' !in line && (|line| > 0 ==> line[|line| - 1] != '\r')
  }

  /** Every line followed by a '\n', as a text file is written. */
  function Unlines(lines: seq<string>): string {
    if lines == [] then [] else lines[0] + "\n" + Unlines(lines[1..])
  }

  lemma {:induction false} UnlinesIsJoin(lines: seq<string>)
    ensures Unlines(lines) == Join(lines + [[]], '\n')
  {
    if lines != [] {
      UnlinesIsJoin(lines[1..]);
      assert (lines + [[]])[1..] == lines[1..] + [[]];
    }
  }

  /** `lines()` reads back the lines of a text written line by line. */
  lemma LinesUnlines(lines: seq<string>)
    requires forall i :: 0 <= i < |lines| ==> IsPlainLine(lines[i])
    ensures Lines(Unlines(lines)) == lines
  {
    SplitUnlines(lines);
    var parts := lines + [[]];
    assert parts[..|parts| - 1] == lines;
    EndedPlainLines(lines);
  }

  lemma SplitUnlines(lines: seq<string>)
    requires forall i :: 0 <= i < |lines| ==> IsPlainLine(lines[i])
    ensures Split(Unlines(lines), '\n') == lines + [[]]
  {
    var parts := lines + [[]];
    UnlinesIsJoin(lines);
    assert forall i :: 0 <= i < |parts| ==> '\n' !in parts[i] by {
      forall i | 0 <= i < |parts| ensures '\n' !in parts[i] {
        if i < |lines| { assert parts[i] == lines[i]; }
      }
    }
    SplitJoin(parts, '\n');
  }

  lemma EndedPlainLines(lines: seq<string>)
    requires forall i :: 0 <= i < |lines| ==> IsPlainLine(lines[i])
    ensures EndedLines(lines) == lines
  {
    var ended := EndedLines(lines);
    forall i | 0 <= i < |lines| ensures ended[i] == lines[i] {
      assert IsPlainLine(lines[i]);
    }
  }

  // ---------------------------------------------------------------------
  // split_once(pat)

  /** pat occurs in s starting at index j. */
  predicate OccursAt(s: string, pat: string, j: nat) {
    j + |pat| <= |s| && s[j..j + |pat|] == pat
  }

  /** The index of the first occurrence of pat in s (`str::find`). */
  function Find(s: string, pat: string): (r: Option<nat>)
    ensures r.Some? ==> OccursAt(s, pat, r.value)
    ensures forall j :: OccursAt(s, pat, j) ==> r.Some? && r.value <= j
  {
    if |pat| > |s| then None
    else if s[..|pat|] == pat then Some(0)
    else
      var r := Find(s[1..], pat);
      assert s[0..|pat|] == s[..|pat|];
      assert !OccursAt(s, pat, 0);
      assert forall j: nat :: OccursAt(s, pat, j) ==> j >= 1 && OccursAt(s[1..], pat, j - 1) by {
        forall j: nat | OccursAt(s, pat, j) ensures j >= 1 && OccursAt(s[1..], pat, j - 1) {
          if j >= 1 { assert s[1..][j - 1..j - 1 + |pat|] == s[j..j + |pat|]; }
        }
      }
      match r
      case None => None
      case Some(k) =>
        assert s[1..][k..k + |pat|] == s[k + 1..k + 1 + |pat|];
        Some(k + 1)
  }

  /**
   * `s.split_once(pat)`: the text before and after the first occurrence of
   * pat, or None when pat does not occur.
   */
  function SplitOnce(s: string, pat: string): (r: Option<(string, string)>)
    ensures r.None? <==> forall j :: !OccursAt(s, pat, j)
    ensures r.Some? ==> r.value.0 + pat + r.value.1 == s
    ensures r.Some? ==> forall j :: OccursAt(s, pat, j) ==> |r.value.0| <= j
  {
    match Find(s, pat)
    case None => None
    case Some(i) =>
      assert s[..i] + pat + s[i + |pat|..] == s by {
        assert s == s[..i] + s[i..i + |pat|] + s[i + |pat|..];
      }
      Some((s[..i], s[i + |pat|..]))
  }

  // ---------------------------------------------------------------------
  // trim()

  function TrimStart(s: string): (t: string)
    ensures |t| <= |s| && t == s[|s| - |t|..]
    ensures forall i :: 0 <= i < |s| - |t| ==> IsWhitespace(s[i])
    ensures t != [] ==> !IsWhitespace(t[0])
  {
    if s != [] && IsWhitespace(s[0]) then TrimStart(s[1..]) else s
  }

  function TrimEnd(s: string): (t: string)
    ensures |t| <= |s| && t == s[..|t|]
    ensures forall i :: |t| <= i < |s| ==> IsWhitespace(s[i])
    ensures t != [] ==> !IsWhitespace(t[|t| - 1])
  {
    if s != [] && IsWhitespace(s[|s| - 1]) then TrimEnd(s[..|s| - 1]) else s
  }

  /** t is the slice of s starting at a, and everything of s around it is whitespace. */
  predicate TrimmedAt(s: string, t: string, a: int) {
    0 <= a <= |s| - |t| && t == s[a..a + |t|] &&
    AllWhitespace(s[..a]) && AllWhitespace(s[a + |t|..])
  }

  predicate AllWhitespace(s: string) {
    forall i :: 0 <= i < |s| ==> IsWhitespace(s[i])
  }

  /** `s.trim()`: s without its leading and trailing whitespace. */
  function Trim(s: string): (t: string)
    ensures |t| <= |s|
    ensures exists a :: TrimmedAt(s, t, a)
    ensures t != [] ==> !IsWhitespace(t[0]) && !IsWhitespace(t[|t| - 1])
  {
    var u := TrimStart(s);
    var a := |s| - |u|;
    var t := TrimEnd(u);
    assert t == s[a..a + |t|];
    assert AllWhitespace(s[..a]);
    assert AllWhitespace(s[a + |t|..]) by {
      var tail := s[a + |t|..];
      forall i | 0 <= i < |tail| ensures IsWhitespace(tail[i]) {
        assert tail[i] == u[|t| + i];
      }
    }
    assert TrimmedAt(s, t, a);
    t
  }

  /** Trimming a string that neither begins nor ends with whitespace leaves it alone. */
  lemma TrimNothing(s: string)
    requires s != [] && !IsWhitespace(s[0]) && !IsWhitespace(s[|s| - 1])
    ensures Trim(s) == s
  {
    assert TrimStart(s) == s;
    assert TrimEnd(s) == s;
  }

  // ---------------------------------------------------------------------
  // split_whitespace()

  /** The length of the run of non-whitespace characters that s begins with. */
  function WordLength(s: string): (n: nat)
    ensures n <= |s|
    ensures forall i :: 0 <= i < n ==> !IsWhitespace(s[i])
    ensures n < |s| ==> IsWhitespace(s[n])
  {
    if s == [] || IsWhitespace(s[0]) then 0 else 1 + WordLength(s[1..])
  }

  /** `s.split_whitespace()`: the maximal runs of non-whitespace characters, in order. */
  function Tokens(s: string): (tokens: seq<string>)
    ensures forall i :: 0 <= i < |tokens| ==> tokens[i] != [] && NoWhitespace(tokens[i])
    decreases |s|
  {
    if s == [] then []
    else if IsWhitespace(s[0]) then Tokens(s[1..])
    else
      var n := WordLength(s);
      [s[..n]] + Tokens(s[n..])
  }

  /** The words written with one space between them. */
  function Unwords(words: seq<string>): string {
    if words == [] then []
    else if |words| == 1 then words[0]
    else words[0] + " " + Unwords(words[1..])
  }

  /** `split_whitespace()` reads back words written with spaces between them. */
  lemma {:induction false} TokensUnwords(words: seq<string>)
    requires forall i :: 0 <= i < |words| ==> words[i] != [] && NoWhitespace(words[i])
    ensures Tokens(Unwords(words)) == words
  {
    if words != [] {
      var w := words[0];
      var s := Unwords(words);
      WordLengthOf(w, if |words| == 1 then [] else " " + Unwords(words[1..]));
      if |words| == 1 {
        assert s == w + [];
        assert s[|w|..] == [];
      } else {
        var rest := Unwords(words[1..]);
        assert s == w + (" " + rest);
        assert s[|w|..] == " " + rest;
        assert (" " + rest)[1..] == rest;
        TokensUnwords(words[1..]);
      }
      assert s[..|w|] == w;
    }
  }

  lemma {:induction false} WordLengthOf(w: string, t: string)
    requires w != [] && NoWhitespace(w)
    requires t == [] || IsWhitespace(t[0])
    ensures WordLength(w + t) == |w|
  {
    var s := w + t;
    assert forall i :: 0 <= i < |w| ==> s[i] == w[i];
    assert |w| < |s| ==> s[|w|] == t[0];
  }
}
