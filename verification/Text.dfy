/** The string operations the repository's text code is built from: line splitting,
    trimming and substring search, on ASCII text. */
module Text {

  datatype Option<+T> = None | Some(value: T)

  const LF: char := '\n'
  const CR: char := '\r'

  /** The ASCII white space of `char::is_whitespace`. */
  const WHITESPACE: set<char> := {' ', '\t', '\n', '\r', '\U{0B}', '\U{0C}'}

  lemma Assoc(a: string, b: string, c: string)
    ensures a + (b + c) == (a + b) + c
  {
  }

  // ----- trimming

  function TrimLeft(s: string, cs: set<char>): (r: string)
    ensures |r| <= |s| && r == s[|s| - |r|..]
    ensures r == "" || r[0] !in cs
  {
    if s == "" || s[0] !in cs then s else TrimLeft(s[1..], cs)
  }

  function TrimRight(s: string, cs: set<char>): (r: string)
    ensures |r| <= |s| && r == s[..|r|]
    ensures r == "" || r[|r| - 1] !in cs
  {
    if s == "" || s[|s| - 1] !in cs then s else TrimRight(s[..|s| - 1], cs)
  }

  function TrimStart(s: string): string { TrimLeft(s, WHITESPACE) }

  function TrimEnd(s: string): string { TrimRight(s, WHITESPACE) }

  function Trim(s: string): string { TrimEnd(TrimStart(s)) }

  /** `trim_start_matches` with a string pattern: the prefix goes as often as it is there. */
  function TrimPrefixes(s: string, p: string): (r: string)
    requires p != ""
    ensures |r| <= |s|
    decreases |s|
  {
    if p <= s then TrimPrefixes(s[|p|..], p) else s
  }

  /** What is left is the end of the text. */
  lemma {:induction false} TrimPrefixesIsEnd(s: string, p: string)
    requires p != ""
    ensures var r := TrimPrefixes(s, p); s[|s| - |r|..] == r
    decreases |s|
  {
    if p <= s {
      var t, r := s[|p|..], TrimPrefixes(s, p);
      TrimPrefixesIsEnd(t, p);
      EndOfEnd(s, |p|, |t| - |r|);
    }
  }

  lemma EndOfEnd(s: string, i: nat, j: nat)
    requires i + j <= |s|
    ensures s[i..][j..] == s[i + j..]
  {
  }

  /** Trimming leaves alone what stands between two characters outside the set. */
  lemma TrimLeftPadded(pad: string, s: string, cs: set<char>)
    requires forall c :: c in pad ==> c in cs
    requires s == "" || s[0] !in cs
    ensures TrimLeft(pad + s, cs) == s
  {
    if pad == "" {
      assert pad + s == s;
    } else {
      assert (pad + s)[1..] == pad[1..] + s;
      TrimLeftPadded(pad[1..], s, cs);
    }
  }

  lemma TrimRightPadded(s: string, pad: string, cs: set<char>)
    requires forall c :: c in pad ==> c in cs
    requires s == "" || s[|s| - 1] !in cs
    ensures TrimRight(s + pad, cs) == s
  {
    if pad == "" {
      assert s + pad == s;
    } else {
      assert (s + pad)[..|s + pad| - 1] == s + pad[..|pad| - 1];
      TrimRightPadded(s, pad[..|pad| - 1], cs);
    }
  }

  /** A text without white space at its ends survives `trim`. */
  lemma TrimKeeps(s: string)
    requires s == "" || (s[0] !in WHITESPACE && s[|s| - 1] !in WHITESPACE)
    ensures Trim(s) == s
  {
  }

  /** Number of leading blanks (tabs do not count). */
  function Indent(s: string): (n: nat)
    ensures n <= |s|
  {
    if s == "" || s[0] != ' ' then 0 else 1 + Indent(s[1..])
  }

  function Blanks(n: nat): (r: string)
    ensures |r| == n && forall i :: 0 <= i < n ==> r[i] == ' '
  {
    seq(n, i => ' ')
  }

  lemma BlanksAreWhite(n: nat)
    ensures forall c :: c in Blanks(n) ==> c in WHITESPACE
  {
  }

  lemma IndentOfPadded(n: nat, s: string)
    requires s == "" || s[0] != ' '
    ensures Indent(Blanks(n) + s) == n
  {
    if n == 0 {
      assert Blanks(0) + s == s;
    } else {
      assert (Blanks(n) + s)[1..] == Blanks(n - 1) + s;
      IndentOfPadded(n - 1, s);
    }
  }

  // ----- searching

  predicate OccursAt(s: string, p: string, i: nat) {
    i + |p| <= |s| && s[i..i + |p|] == p
  }

  predicate Contains(s: string, p: string) {
    exists i: nat :: i <= |s| && OccursAt(s, p, i)
  }

  predicate EndsWith(s: string, p: string) {
    |p| <= |s| && s[|s| - |p|..] == p
  }

  function FindFrom(s: string, p: string, i: nat): (r: Option<nat>)
    requires i <= |s|
    ensures r.Some? ==> i <= r.value && OccursAt(s, p, r.value)
    ensures r.Some? ==> forall j :: i <= j < r.value ==> !OccursAt(s, p, j)
    ensures r.None? ==> forall j :: i <= j <= |s| ==> !OccursAt(s, p, j)
    decreases |s| - i
  {
    if OccursAt(s, p, i) then Some(i)
    else if i == |s| then None
    else FindFrom(s, p, i + 1)
  }

  /** `str::find`: the first occurrence. */
  function Find(s: string, p: string): (r: Option<nat>)
    ensures r.Some? ==> OccursAt(s, p, r.value)
    ensures r.Some? ==> forall j: nat :: j < r.value ==> !OccursAt(s, p, j)
    ensures r.None? <==> !Contains(s, p)
  {
    FindFrom(s, p, 0)
  }

  lemma FindIs(s: string, p: string, i: nat)
    requires OccursAt(s, p, i)
    requires forall j: nat :: j < i ==> !OccursAt(s, p, j)
    ensures Find(s, p) == Some(i)
  {
    assert i <= |s|;
  }

  /** `str::find` with a single character. */
  function FindChar(s: string, c: char): (r: Option<nat>)
    ensures r.Some? ==> r.value < |s| && s[r.value] == c && c !in s[..r.value]
    ensures r.None? ==> c !in s
  {
    if s == "" then None
    else if s[0] == c then Some(0)
    else
      match FindChar(s[1..], c)
      case None => None
      case Some(i) =>
        assert s[..i + 1] == [s[0]] + s[1..][..i];
        Some(i + 1)
  }

  lemma FindCharIs(before: string, c: char, after: string)
    requires c !in before
    ensures FindChar(before + [c] + after, c) == Some(|before|)
  {
    if before != "" {
      assert (before + [c] + after)[1..] == before[1..] + [c] + after;
      FindCharIs(before[1..], c, after);
    }
  }

  /** `split(c).next()`. */
  function BeforeFirst(s: string, c: char): string {
    match FindChar(s, c)
    case None => s
    case Some(i) => s[..i]
  }

  // ----- lines

  /** Cut after every LF: the pieces that end in LF (without it), and what follows the last LF. */
  datatype Pieces = Pieces(complete: seq<string>, rest: string)

  function Split(text: string): (r: Pieces)
    ensures LF !in r.rest
    ensures forall l :: l in r.complete ==> LF !in l
    decreases |text|
  {
    match FindChar(text, LF)
    case None => Pieces([], text)
    case Some(i) =>
      var tail := Split(text[i + 1..]);
      Pieces([text[..i]] + tail.complete, tail.rest)
  }

  /** The text splits at its first LF. */
  lemma {:induction false} SplitAtLf(line: string, tail: string)
    requires LF !in line
    ensures Split(line + [LF] + tail)
         == Pieces([line] + Split(tail).complete, Split(tail).rest)
  {
    var text := line + [LF] + tail;
    FindCharIs(line, LF, tail);
    assert text[..|line|] == line;
    assert text[|line| + 1..] == tail;
  }

  lemma SplitNoLf(text: string)
    requires LF !in text
    ensures Split(text) == Pieces([], text)
  {
  }

  function StripCr(line: string): string {
    if line != "" && line[|line| - 1] == CR then line[..|line| - 1] else line
  }

  function StripCrs(lines: seq<string>): (r: seq<string>)
    ensures |r| == |lines|
    ensures forall i :: 0 <= i < |r| ==> r[i] == StripCr(lines[i])
  {
    seq(|lines|, i requires 0 <= i < |lines| => StripCr(lines[i]))
  }

  /** `str::lines`: LF ends a line, one CR before it goes too; an unterminated rest is a line. */
  function Lines(text: string): seq<string> {
    var p := Split(text);
    StripCrs(p.complete) + if p.rest == "" then [] else [p.rest]
  }

  lemma LinesHaveNoLf(text: string)
    ensures forall l :: l in Lines(text) ==> LF !in l
  {
    var p := Split(text);
    forall l | l in Lines(text) ensures LF !in l {
      if l in StripCrs(p.complete) {
        var i :| 0 <= i < |p.complete| && l == StripCr(p.complete[i]);
        assert p.complete[i] in p.complete;
      }
    }
  }

  /** Every line pushed with an LF after it. */
  function Unlines(lines: seq<string>): string {
    if lines == [] then "" else lines[0] + [LF] + Unlines(lines[1..])
  }

  /** A line that `lines` gives back unchanged. */
  predicate CleanLine(line: string) {
    LF !in line && (line == "" || line[|line| - 1] != CR)
  }

  predicate CleanLines(lines: seq<string>) {
    forall i :: 0 <= i < |lines| ==> CleanLine(lines[i])
  }

  lemma {:induction false} LinesOfUnlines(lines: seq<string>)
    requires CleanLines(lines)
    ensures Lines(Unlines(lines)) == lines
    ensures Split(Unlines(lines)).rest == ""
  {
    if lines == [] {
    } else {
      LinesOfUnlines(lines[1..]);
      SplitAtLf(lines[0], Unlines(lines[1..]));
      assert StripCr(lines[0]) == lines[0];
      assert lines == [lines[0]] + lines[1..];
    }
  }

  lemma UnlinesAppend(a: seq<string>, b: seq<string>)
    ensures Unlines(a + b) == Unlines(a) + Unlines(b)
  {
    if a == [] {
      assert a + b == b;
    } else {
      assert (a + b)[1..] == a[1..] + b;
      UnlinesAppend(a[1..], b);
      calc {
        Unlines(a + b);
        a[0] + [LF] + (Unlines(a[1..]) + Unlines(b));
        (a[0] + [LF] + Unlines(a[1..])) + Unlines(b);
      }
    }
  }
}
