/** Kubeconfig texts (`crates/pertisk-bootstrap/src/kubeconfig.rs`): rendering, renaming the cluster
    and context, rewriting the server, reading its host.

    The two rewriters go over the lines of any text. Their laws are proved on all texts first: the
    last rewrite wins and the two commute, up to CRs at line ends. What they do to rendered texts
    follows line by line of the template. */
module Kubeconfig {
  import opened Text
  import InitialCluster

  // ----- names

  predicate NameChar(c: char) {
    'a' <= c <= 'z' || 'A' <= c <= 'Z' || '0' <= c <= '9' || c == '-' || c == '_' || c == '.'
  }

  /** `sanitize_context_name`. */
  function Sanitized(name: string): (r: string)
    ensures r != "" && forall i :: 0 <= i < |r| ==> NameChar(r[i])
  {
    var trimmed := Trim(name);
    if trimmed == "" then "pertisk"
    else seq(|trimmed|, i requires 0 <= i < |trimmed| => if NameChar(trimmed[i]) then trimmed[i] else '-')
  }

  /** A name of letters, digits, dashes, underscores and dots stays; every other character of a
      trimmed name becomes a dash; nothing becomes the default. */
  lemma {:induction false} SanitizedIs(name: string)
    ensures Trim(name) == "" ==> Sanitized(name) == "pertisk"
    ensures Trim(name) != "" ==>
              && |Sanitized(name)| == |Trim(name)|
              && forall i :: 0 <= i < |Trim(name)| ==>
                   var c := Trim(name)[i];
                   Sanitized(name)[i]
                   == if 'a' <= c <= 'z' || 'A' <= c <= 'Z' || '0' <= c <= '9' || c in {'-', '_', '.'} then c else '-'
    ensures Sanitized(Sanitized(name)) == Sanitized(name)
  {
    hide Trim;
    var r := Sanitized(name);
    CleanEndsStay(r);
  }

  lemma CleanEndsStay(r: string)
    requires r != "" && forall i :: 0 <= i < |r| ==> NameChar(r[i])
    ensures Trim(r) == r
  {
    hide Trim;
    assert NameChar(r[0]) && NameChar(r[|r| - 1]);
    TrimKeeps(r);
  }

  // ----- what a line is

  datatype Keyword = Clusters | Users | Contexts | Current | Name | Cluster | Server

  function Word(k: Keyword): string {
    match k
    case Clusters => "clusters:"
    case Users => "users:"
    case Contexts => "contexts:"
    case Current => "current-context:"
    case Name => "name:"
    case Cluster => "cluster:"
    case Server => "server:"
  }

  predicate Starts(line: string, k: Keyword) { Word(k) <= TrimStart(line) }

  function Pad(line: string): nat { |line| - |TrimStart(line)| }

  // ----- renaming

  datatype Flags = Flags(inClusters: bool, inContexts: bool, sawCluster: bool, sawContext: bool)

  const START: Flags := Flags(false, false, false, false)

  function NextFlags(f: Flags, line: string): Flags {
    if Starts(line, Clusters) then Flags(true, false, false, f.sawContext)
    else if Starts(line, Users) then f.(inClusters := false, inContexts := false)
    else if Starts(line, Contexts) then Flags(false, true, f.sawCluster, false)
    else if Starts(line, Current) then f
    else if f.inClusters && !f.sawCluster && Starts(line, Name) then
      if Pad(line) == 2 then f.(sawCluster := true) else f
    else if f.inContexts && !Starts(line, Cluster) && !f.sawContext && Starts(line, Name) && Pad(line) == 2 then
      f.(sawContext := true)
    else f
  }

  /** What becomes of a line: a new text after its keyword, or nothing new. */
  function Renamed(f: Flags, line: string, name: string): string {
    if Starts(line, Clusters) || Starts(line, Users) || Starts(line, Contexts) then line
    else if Starts(line, Current) then "current-context: " + name
    else if f.inClusters && !f.sawCluster && Starts(line, Name) then
      if Pad(line) == 2 then "  name: " + name else line
    else if f.inContexts && Starts(line, Cluster) then Blanks(Pad(line)) + "cluster: " + name
    else if f.inContexts && !f.sawContext && Starts(line, Name) && Pad(line) == 2 then "  name: " + name
    else line
  }

  function RenameLines(lines: seq<string>, f: Flags, name: string): (r: seq<string>)
    ensures |r| == |lines|
    decreases |lines|
  {
    if lines == [] then []
    else [Renamed(f, lines[0], name)] + RenameLines(lines[1..], NextFlags(f, lines[0]), name)
  }

  function Rename(text: string, clusterName: string): string {
    Unlines(RenameLines(Lines(text), START, Sanitized(clusterName)))
  }

  method RenameKubeconfigContext(text: string, clusterName: string) returns (out: string)
    ensures out == Rename(text, clusterName)
  {
    hide Starts, Pad, Sanitized, Lines, Blanks, Unlines;
    var name := Sanitized(clusterName);
    var lines := Lines(text);
    ghost var done: seq<string> := [];
    ghost var all := RenameLines(lines, START, name);
    out := "";
    var inClusters, inContexts, sawCluster, sawContext := false, false, false, false;
    UnlinesNothing();
    assert [] + all == all && lines[0..] == lines;
    for k := 0 to |lines|
      invariant out == Unlines(done)
      invariant done + RenameLines(lines[k..], Flags(inClusters, inContexts, sawCluster, sawContext), name) == all
    {
      var line := lines[k];
      ghost var f := Flags(inClusters, inContexts, sawCluster, sawContext);
      RenameOne(done, lines, k, f, name);
      done := done + [Renamed(f, line, name)];
      if Starts(line, Clusters) {
        inClusters, inContexts, sawCluster := true, false, false;
      } else if Starts(line, Users) {
        inClusters, inContexts := false, false;
      } else if Starts(line, Contexts) {
        inClusters, inContexts, sawContext := false, true, false;
      } else if Starts(line, Current) {
        out := out + ("current-context: " + name) + [LF];
        continue;
      } else if inClusters && !sawCluster && Starts(line, Name) {
        if Pad(line) == 2 {
          out := out + ("  name: " + name) + [LF];
          sawCluster := true;
          continue;
        }
      } else if inContexts {
        if Starts(line, Cluster) {
          out := out + (Blanks(Pad(line)) + "cluster: " + name) + [LF];
          continue;
        }
        if !sawContext && Starts(line, Name) {
          if Pad(line) == 2 {
            out := out + ("  name: " + name) + [LF];
            sawContext := true;
            continue;
          }
        }
      }
      out := out + line + [LF];
    }
    assert lines[|lines|..] == [];
    assert done + [] == done;
  }

  lemma UnlinesNothing()
    ensures Unlines([]) == ""
  {
  }

  lemma RenameOne(done: seq<string>, lines: seq<string>, k: nat, f: Flags, name: string)
    requires k < |lines|
    ensures done + RenameLines(lines[k..], f, name)
         == done + [Renamed(f, lines[k], name)] + RenameLines(lines[k + 1..], NextFlags(f, lines[k]), name)
    ensures Unlines(done + [Renamed(f, lines[k], name)]) == Unlines(done) + Renamed(f, lines[k], name) + [LF]
  {
    hide *;
    var line, rest := Renamed(f, lines[k], name), lines[k + 1..];
    assert lines[k..] == [lines[k]] + rest;
    RenameCons(lines[k], rest, f, name);
    var after := RenameLines(rest, NextFlags(f, lines[k]), name);
    assert done + ([line] + after) == done + [line] + after;
    UnlinesSnoc(done, line);
  }

  // ----- rewriting the server

  function Served(line: string, url: string): string {
    if Starts(line, Server) then Blanks(Pad(line)) + "server: " + Trim(url) else line
  }

  function ServeLines(lines: seq<string>, url: string): (r: seq<string>)
    ensures |r| == |lines| && forall i :: 0 <= i < |r| ==> r[i] == Served(lines[i], url)
  {
    seq(|lines|, i requires 0 <= i < |lines| => Served(lines[i], url))
  }

  function Rewrite(text: string, url: string): string { Unlines(ServeLines(Lines(text), url)) }

  method RewriteKubeconfigServer(text: string, url: string) returns (out: string)
    ensures out == Rewrite(text, url)
  {
    hide Starts, Pad, Lines, Blanks, Unlines, Trim;
    var lines := Lines(text);
    ghost var all := ServeLines(lines, url);
    out := "";
    UnlinesNothing();
    for k := 0 to |lines|
      invariant out == Unlines(all[..k])
    {
      var line := lines[k];
      UnlinesSnoc(all[..k], all[k]);
      assert all[..k + 1] == all[..k] + [all[k]];
      if Starts(line, Server) {
        out := out + (Blanks(Pad(line)) + "server: " + Trim(url)) + [LF];
      } else {
        out := out + line + [LF];
      }
    }
    assert all[..|lines|] == all;
  }

  lemma UnlinesSnoc(done: seq<string>, line: string)
    ensures Unlines(done + [line]) == Unlines(done) + line + [LF]
  {
    UnlinesAppend(done, [line]);
    assert [line][1..] == [];
    assert Unlines([line]) == line + [LF];
  }

  // ----- lines that start with the same keyword

  /** At most one keyword starts a text, and none ends in a newline character. */
  lemma OneWord(t: string, j: Keyword, k: Keyword)
    requires Word(j) <= t && Word(k) <= t
    ensures j == k
  {
    if j != k {
      var i := DifferAt(j, k);
      WordsDiffer(j, k);
      SharedChar(t, Word(j), Word(k), i);
    }
  }

  lemma SharedChar(t: string, v: string, w: string, i: nat)
    requires v <= t && w <= t && i < |v| && i < |w|
    ensures v[i] == w[i]
  {
    assert t[i] == v[i];
  }

  /** Where two keywords differ. */
  function DifferAt(j: Keyword, k: Keyword): nat {
    match (j, k)
    case (Clusters, Cluster) => 7
    case (Cluster, Clusters) => 7
    case (_, _) => if Word(j)[0] != Word(k)[0] then 0 else 1
  }

  lemma WordsDiffer(j: Keyword, k: Keyword)
    requires j != k
    ensures var i := DifferAt(j, k); i < |Word(j)| && i < |Word(k)| && Word(j)[i] != Word(k)[i]
  {
  }

  lemma WordShape(k: Keyword)
    ensures |Word(k)| >= 5 && Word(k)[0] !in WHITESPACE && Word(k)[|Word(k)| - 1] == ':'
  {
  }

  /** The same keyword, if any, and the same padding before it. */
  ghost predicate Alike(l: string, m: string) {
    && (forall k :: Starts(l, k) <==> Starts(m, k))
    && (forall k :: Starts(l, k) && k != Current ==> Pad(l) == Pad(m))
  }

  lemma StartsPadded(n: nat, k: Keyword, w: string, line: string)
    requires line == Blanks(n) + Word(k) + w
    ensures Starts(line, k) && Pad(line) == n
  {
    hide Word;
    WordShape(k);
    BlanksAreWhite(n);
    assert line == Blanks(n) + (Word(k) + w);
    TrimLeftPadded(Blanks(n), Word(k) + w, WHITESPACE);
  }

  lemma AlikeIfSameWord(l: string, m: string, k: Keyword)
    requires Starts(l, k) && Starts(m, k) && (k != Current ==> Pad(l) == Pad(m))
    ensures Alike(l, m)
  {
    hide Word, Pad, TrimStart;
    forall j ensures Starts(l, j) <==> Starts(m, j) {
      if Starts(l, j) {
        OneWord(TrimStart(l), j, k);
      }
      if Starts(m, j) {
        OneWord(TrimStart(m), j, k);
      }
    }
    forall j | Starts(l, j) && j != Current ensures Pad(l) == Pad(m) {
      OneWord(TrimStart(l), j, k);
    }
  }

  /** A trailing CR does not matter. */
  lemma StripAlike(line: string)
    ensures Alike(line, StripCr(line))
  {
    hide Word, TrimLeft;
    var m := StripCr(line);
    if line != m {
      TrimStartCr(m);
      assert line == m + [CR];
      forall k ensures Starts(line, k) <==> Starts(m, k) {
        WordShape(k);
        PrefixBeforeCr(Word(k), TrimStart(m));
      }
      forall k | Starts(line, k) ensures Pad(line) == Pad(m) {
        WordShape(k);
      }
    }
  }

  lemma PrefixBeforeCr(w: string, t: string)
    requires w != "" && w[|w| - 1] != CR
    ensures w <= t + [CR] <==> w <= t
  {
    if w <= t + [CR] {
      assert (t + [CR])[|w| - 1] == w[|w| - 1];
      assert w == (t + [CR])[..|w|] == t[..|w|];
    }
    if w <= t {
      assert w == t[..|w|] == (t + [CR])[..|w|];
    }
  }

  lemma {:induction false} TrimStartCr(m: string)
    ensures TrimStart(m + [CR]) == if TrimStart(m) == "" then "" else TrimStart(m) + [CR]
  {
    if m == "" {
      assert "" + [CR] == [CR];
      assert [CR][1..] == "";
    } else {
      assert (m + [CR])[1..] == m[1..] + [CR];
      TrimStartCr(m[1..]);
    }
  }

  // ----- renaming twice

  predicate Touches(f: Flags, line: string) {
    || (Starts(line, Current) && !Starts(line, Clusters) && !Starts(line, Users) && !Starts(line, Contexts))
    || (Starts(line, Name) && Pad(line) == 2
        && ((f.inClusters && !f.sawCluster) || (f.inContexts && !f.sawContext)))
    || (Starts(line, Cluster) && f.inContexts)
  }

  predicate CleanName(name: string) { forall i :: 0 <= i < |name| ==> NameChar(name[i]) }

  lemma RenamedLine(f: Flags, line: string, name: string)
    requires CleanName(name)
    ensures !Touches(f, line) ==> Renamed(f, line, name) == line
    ensures Touches(f, line) ==> CleanLine(Renamed(f, line, name))
    ensures Alike(line, Renamed(f, line, name))
    ensures forall m :: Alike(line, m) ==>
              NextFlags(f, m) == NextFlags(f, line) && (Touches(f, m) <==> Touches(f, line))
    ensures forall m :: Alike(line, m) && Touches(f, line) ==> Renamed(f, m, name) == Renamed(f, line, name)
  {
    hide Word, TrimStart, NameChar, CleanName, CleanLine, Starts, Pad;
    Exclusive(line);
    forall m | Alike(line, m)
      ensures NextFlags(f, m) == NextFlags(f, line) && (Touches(f, m) <==> Touches(f, line))
      ensures Touches(f, line) ==> Renamed(f, m, name) == Renamed(f, line, name)
    {
      Exclusive(m);
    }
    NewLines(Pad(line), name);
    if Touches(f, line) {
      var k := if Starts(line, Current) then Current else if Starts(line, Name) then Name else Cluster;
      AlikeIfSameWord(line, Renamed(f, line, name), k);
    } else {
      AlikeItself(line);
    }
  }

  lemma AlikeItself(line: string)
    ensures Alike(line, line)
  {
  }

  lemma Exclusive(line: string)
    ensures forall j, k :: Starts(line, j) && Starts(line, k) ==> j == k
  {
    hide Word, TrimStart;
    forall j, k | Starts(line, j) && Starts(line, k) ensures j == k {
      OneWord(TrimStart(line), j, k);
    }
  }

  lemma NewLines(n: nat, name: string)
    requires CleanName(name)
    ensures CleanLine("current-context: " + name) && Starts("current-context: " + name, Current)
    ensures CleanLine("  name: " + name) && Starts("  name: " + name, Name) && Pad("  name: " + name) == 2
    ensures var l := Blanks(n) + "cluster: " + name; CleanLine(l) && Starts(l, Cluster) && Pad(l) == n
  {
    hide Starts, Pad;
    assert forall i :: 0 <= i < |name| ==> NameChar(name[i]) && name[i] != LF && name[i] != CR;
    assert "current-context: " + name == Blanks(0) + Word(Current) + (" " + name);
    StartsPadded(0, Current, " " + name, "current-context: " + name);
    assert "  name: " + name == Blanks(2) + Word(Name) + (" " + name);
    StartsPadded(2, Name, " " + name, "  name: " + name);
    assert Blanks(n) + "cluster: " + name == Blanks(n) + Word(Cluster) + (" " + name);
    StartsPadded(n, Cluster, " " + name, Blanks(n) + "cluster: " + name);
  }

  /** Renaming a line that was renamed and read back is renaming it once, and reading that back. */
  lemma RenamedTwice(f: Flags, line: string, a: string, b: string)
    requires CleanName(a) && CleanName(b)
    ensures var again := StripCr(Renamed(f, line, a));
            && Renamed(f, again, b) == StripCr(Renamed(f, line, b))
            && NextFlags(f, again) == NextFlags(f, line)
  {
    hide Renamed, NextFlags, Touches, Alike, CleanName;
    RenamedLine(f, line, a);
    RenamedLine(f, line, b);
    StripAlike(Renamed(f, line, a));
    AlikeTransitive(line, Renamed(f, line, a), StripCr(Renamed(f, line, a)));
    RenamedLine(f, StripCr(Renamed(f, line, a)), b);
  }

  lemma AlikeTransitive(l: string, m: string, n: string)
    requires Alike(l, m) && Alike(m, n)
    ensures Alike(l, n)
  {
    hide Starts, Pad;
  }

  lemma {:induction false} LinesRenamedTwice(lines: seq<string>, f: Flags, a: string, b: string)
    requires CleanName(a) && CleanName(b)
    ensures RenameLines(StripCrs(RenameLines(lines, f, a)), f, b) == StripCrs(RenameLines(lines, f, b))
    decreases |lines|
  {
    hide Renamed, NextFlags, StripCr, CleanName;
    if lines != [] {
      RenamedTwice(f, lines[0], a, b);
      LinesRenamedTwice(lines[1..], NextFlags(f, lines[0]), a, b);
      assert StripCrs(RenameLines(lines, f, a))[1..] == StripCrs(RenameLines(lines[1..], NextFlags(f, lines[0]), a));
    }
  }

  /** Reading back lines without LF. */
  lemma {:induction false} SplitOfUnlines(lines: seq<string>)
    requires forall l :: l in lines ==> LF !in l
    ensures Split(Unlines(lines)) == Pieces(lines, "") && Lines(Unlines(lines)) == StripCrs(lines)
  {
    hide Split;
    if lines == [] {
      SplitNoLf("");
    } else {
      SplitOfUnlines(lines[1..]);
      SplitAtLf(lines[0], Unlines(lines[1..]));
      assert lines == [lines[0]] + lines[1..];
    }
    NoRest(lines);
  }

  lemma NoRest(lines: seq<string>)
    ensures StripCrs(lines) + [] == StripCrs(lines)
  {
  }

  lemma {:induction false} RenamedHaveNoLf(lines: seq<string>, f: Flags, name: string)
    requires CleanName(name) && forall l :: l in lines ==> LF !in l
    ensures forall l :: l in RenameLines(lines, f, name) ==> LF !in l
    decreases |lines|
  {
    hide Renamed, NextFlags, CleanName, Touches, Alike;
    if lines != [] {
      RenamedLine(f, lines[0], name);
      RenamedHaveNoLf(lines[1..], NextFlags(f, lines[0]), name);
    }
  }

  /** Texts that differ only in CRs at line ends are equal iff there are none. */
  lemma StrippedTextEqual(lines: seq<string>)
    requires forall l :: l in lines ==> LF !in l
    ensures Unlines(StripCrs(lines)) == Unlines(lines) <==> CleanLines(lines)
  {
    hide Unlines, Split;
    forall l | l in StripCrs(lines) ensures LF !in l {
      var i :| 0 <= i < |lines| && l == StripCr(lines[i]);
      assert lines[i] in lines;
    }
    SplitOfUnlines(lines);
    SplitOfUnlines(StripCrs(lines));
    CleanIsStripped(lines);
  }

  lemma CleanIsStripped(lines: seq<string>)
    requires forall l :: l in lines ==> LF !in l
    ensures CleanLines(lines) <==> StripCrs(lines) == lines
  {
    if StripCrs(lines) == lines {
      forall i | 0 <= i < |lines| ensures CleanLine(lines[i]) {
        assert lines[i] in lines && StripCrs(lines)[i] == lines[i];
      }
    }
  }

  /** Every line that a rename leaves alone is clean: the others get a text of their own. */
  predicate KeptAreClean(lines: seq<string>, f: Flags)
    decreases |lines|
  {
    lines == []
    || ((Touches(f, lines[0]) || CleanLine(lines[0])) && KeptAreClean(lines[1..], NextFlags(f, lines[0])))
  }

  lemma {:induction false} CleanIfKeptAre(lines: seq<string>, f: Flags, name: string)
    requires CleanName(name)
    ensures CleanLines(RenameLines(lines, f, name)) <==> KeptAreClean(lines, f)
    decreases |lines|
  {
    hide Touches, CleanLine, CleanLines, NextFlags, Renamed, Alike, CleanName, RenameLines;
    if lines == [] {
      CleanNothing();
      NoLines(f, name);
    } else {
      RenamedLine(f, lines[0], name);
      CleanIfKeptAre(lines[1..], NextFlags(f, lines[0]), name);
      assert [lines[0]] + lines[1..] == lines;
      RenameCons(lines[0], lines[1..], f, name);
      CleanCons(Renamed(f, lines[0], name), RenameLines(lines[1..], NextFlags(f, lines[0]), name));
    }
  }

  lemma NoLines(f: Flags, name: string)
    ensures RenameLines([], f, name) == []
  {
  }

  lemma CleanNothing()
    ensures CleanLines([])
  {
  }

  lemma CleanCons(line: string, lines: seq<string>)
    ensures CleanLines([line] + lines) <==> CleanLine(line) && CleanLines(lines)
  {
    var all := [line] + lines;
    assert all[0] == line && forall i :: 0 <= i < |lines| ==> all[i + 1] == lines[i];
    assert forall i :: 0 < i < |all| ==> all[i] == lines[i - 1];
  }

  /** The last rename wins, for every text, exactly when the lines it leaves alone do not end in CR. */
  lemma {:induction false} LastRenameWins(text: string, a: string, b: string)
    ensures Rename(Rename(text, a), b) == Rename(text, b) <==> KeptAreClean(Lines(text), START)
  {
    hide Lines, Sanitized, Unlines, RenameLines, CleanLines, KeptAreClean;
    var lines := Lines(text);
    SanitizedIsClean(a);
    SanitizedIsClean(b);
    LinesHaveNoLf(text);
    RenamedHaveNoLf(lines, START, Sanitized(a));
    RenamedHaveNoLf(lines, START, Sanitized(b));
    SplitOfUnlines(RenameLines(lines, START, Sanitized(a)));
    LinesRenamedTwice(lines, START, Sanitized(a), Sanitized(b));
    StrippedTextEqual(RenameLines(lines, START, Sanitized(b)));
    CleanIfKeptAre(lines, START, Sanitized(b));
  }

  lemma SanitizedIsClean(name: string)
    ensures CleanName(Sanitized(name))
  {
  }

  // ----- rewriting twice, and both

  /** A URL that is one line once trimmed. */
  predicate OneLine(url: string) { LF !in Trim(url) }

  lemma ServedLine(line: string, url: string)
    requires OneLine(url)
    ensures !Starts(line, Server) ==> Served(line, url) == line
    ensures Starts(line, Server) ==> CleanLine(Served(line, url))
    ensures Alike(line, Served(line, url))
    ensures forall m :: Alike(line, m) && Starts(line, Server) ==> Served(m, url) == Served(line, url)
  {
    hide Starts, Pad, Trim, Alike;
    if Starts(line, Server) {
      ServerLine(Pad(line), url);
      AlikeIfSameWord(line, Served(line, url), Server);
      forall m | Alike(line, m) ensures Served(m, url) == Served(line, url) {
        AlikeServer(line, m);
      }
    } else {
      AlikeItself(line);
    }
  }

  lemma AlikeServer(l: string, m: string)
    requires Alike(l, m)
    ensures Starts(l, Server) <==> Starts(m, Server)
    ensures Starts(l, Server) ==> Pad(l) == Pad(m)
  {
    hide Starts, Pad;
  }

  lemma ServerLine(n: nat, url: string)
    requires OneLine(url)
    ensures var l := Blanks(n) + "server: " + Trim(url); CleanLine(l) && Starts(l, Server) && Pad(l) == n
  {
    hide Starts, Pad, Trim;
    var u := Trim(url);
    TrimmedEnd(url);
    var l := Blanks(n) + "server: " + u;
    assert l == Blanks(n) + Word(Server) + (" " + u);
    StartsPadded(n, Server, " " + u, l);
  }

  lemma TrimmedEnd(s: string)
    ensures Trim(s) == "" || (Trim(s)[|Trim(s)| - 1] != CR && Trim(s)[|Trim(s)| - 1] !in WHITESPACE)
  {
  }

  lemma ServedTwice(line: string, a: string, b: string)
    requires OneLine(a) && OneLine(b)
    ensures Served(StripCr(Served(line, a)), b) == StripCr(Served(line, b))
  {
    hide Served, Starts, Alike, OneLine;
    ServedLine(line, a);
    ServedLine(line, b);
    StripAlike(Served(line, a));
    AlikeTransitive(line, Served(line, a), StripCr(Served(line, a)));
    AlikeServer(line, StripCr(Served(line, a)));
    ServedLine(StripCr(Served(line, a)), b);
  }

  lemma ServedHaveNoLf(lines: seq<string>, url: string)
    requires OneLine(url) && forall l :: l in lines ==> LF !in l
    ensures forall l :: l in ServeLines(lines, url) ==> LF !in l
  {
    hide Served, OneLine, Alike;
    forall l | l in ServeLines(lines, url) ensures LF !in l {
      var i :| 0 <= i < |lines| && l == Served(lines[i], url);
      assert lines[i] in lines;
      ServedLine(lines[i], url);
    }
  }

  lemma CleanIfOthersAre(lines: seq<string>, url: string)
    requires OneLine(url)
    ensures CleanLines(ServeLines(lines, url)) <==> forall l :: l in lines && !Starts(l, Server) ==> CleanLine(l)
  {
    hide Served, OneLine, CleanLine, Starts, Alike;
    var r := ServeLines(lines, url);
    forall i | 0 <= i < |lines|
      ensures CleanLine(r[i]) <==> Starts(lines[i], Server) || CleanLine(lines[i])
      ensures lines[i] in lines
    {
      ServedLine(lines[i], url);
    }
  }

  /** The last rewrite wins, for every text, exactly when no line but server lines ends in CR. */
  lemma LastRewriteWins(text: string, a: string, b: string)
    requires OneLine(a) && OneLine(b)
    ensures Rewrite(Rewrite(text, a), b) == Rewrite(text, b)
       <==> forall l :: l in Lines(text) && !Starts(l, Server) ==> CleanLine(l)
  {
    hide Lines, Unlines, Served, CleanLines, CleanLine, Starts, OneLine;
    var lines := Lines(text);
    LinesHaveNoLf(text);
    ServedHaveNoLf(lines, a);
    ServedHaveNoLf(lines, b);
    SplitOfUnlines(ServeLines(lines, a));
    forall i | 0 <= i < |lines| ensures Served(StripCr(Served(lines[i], a)), b) == StripCr(Served(lines[i], b)) {
      ServedTwice(lines[i], a, b);
    }
    assert ServeLines(StripCrs(ServeLines(lines, a)), b) == StripCrs(ServeLines(lines, b));
    StrippedTextEqual(ServeLines(lines, b));
    CleanIfOthersAre(lines, b);
  }

  lemma RenamedServed(f: Flags, line: string, name: string, url: string)
    requires CleanName(name) && OneLine(url)
    ensures Served(StripCr(Renamed(f, line, name)), url) == Renamed(f, StripCr(Served(line, url)), name)
    ensures NextFlags(f, StripCr(Served(line, url))) == NextFlags(f, line)
  {
    hide Served, Renamed, NextFlags, Starts, Alike, OneLine, CleanName, Pad;
    var r, s := Renamed(f, line, name), Served(line, url);
    RenamedLine(f, line, name);
    ServedLine(line, url);
    Exclusive(line);
    StripAlike(r);
    StripAlike(s);
    AlikeTransitive(line, r, StripCr(r));
    AlikeTransitive(line, s, StripCr(s));
    AlikeServer(line, StripCr(r));
    ServedLine(StripCr(r), url);
    RenamedLine(f, StripCr(s), name);
  }

  lemma ServeCons(line: string, rest: seq<string>, url: string)
    ensures ServeLines([line] + rest, url) == [Served(line, url)] + ServeLines(rest, url)
  {
    hide Served;
  }

  lemma StripCons(line: string, rest: seq<string>)
    ensures StripCrs([line] + rest) == [StripCr(line)] + StripCrs(rest)
  {
    hide StripCr;
  }

  lemma RenameCons(line: string, rest: seq<string>, f: Flags, name: string)
    ensures RenameLines([line] + rest, f, name)
         == [Renamed(f, line, name)] + RenameLines(rest, NextFlags(f, line), name)
  {
    hide Renamed, NextFlags;
    assert ([line] + rest)[1..] == rest;
  }

  lemma NothingToRename(f: Flags, name: string, url: string)
    ensures ServeLines(StripCrs(RenameLines([], f, name)), url) == RenameLines(StripCrs(ServeLines([], url)), f, name)
  {
  }

  lemma {:induction false} LinesRenamedServed(lines: seq<string>, f: Flags, name: string, url: string)
    requires CleanName(name) && OneLine(url)
    ensures ServeLines(StripCrs(RenameLines(lines, f, name)), url)
         == RenameLines(StripCrs(ServeLines(lines, url)), f, name)
    decreases |lines|
  {
    hide *;
    if lines == [] {
      NothingToRename(f, name, url);
    } else {
      var line, rest := lines[0], lines[1..];
      assert lines == [line] + rest;
      var g, r, s := NextFlags(f, line), Renamed(f, line, name), Served(line, url);
      RenamedServed(f, line, name, url);
      LinesRenamedServed(rest, g, name, url);
      RenameCons(line, rest, f, name);
      StripCons(r, RenameLines(rest, g, name));
      ServeCons(StripCr(r), StripCrs(RenameLines(rest, g, name)), url);
      ServeCons(line, rest, url);
      StripCons(s, ServeLines(rest, url));
      RenameCons(StripCr(s), StripCrs(ServeLines(rest, url)), f, name);
    }
  }

  /** Renaming and rewriting commute, on every text. */
  lemma {:induction false} RenameRewriteCommute(text: string, name: string, url: string)
    requires OneLine(url)
    ensures Rewrite(Rename(text, name), url) == Rename(Rewrite(text, url), name)
  {
    hide Lines, Unlines, Served, OneLine, RenameLines, Sanitized;
    var lines, n := Lines(text), Sanitized(name);
    SanitizedIsClean(name);
    LinesHaveNoLf(text);
    RenamedHaveNoLf(lines, START, n);
    ServedHaveNoLf(lines, url);
    SplitOfUnlines(RenameLines(lines, START, n));
    SplitOfUnlines(ServeLines(lines, url));
    LinesRenamedServed(lines, START, n, url);
  }

  // ----- rendered texts

  /** Base64 text, which is what the certificates and the key are rendered as. */
  predicate Base64(s: string) {
    forall i :: 0 <= i < |s| ==> NameChar(s[i]) || s[i] in {'+', '/', '='}
  }

  datatype Config = Config(server: string, ca: string, cert: string, key: string, user: string)

  const SIZE: nat := 18

  /** The template, line by line: padding, fixed text, and what is filled in. */
  function PadAt(k: nat): nat {
    if k == 6 || k == 9 || k == 16 then 2
    else if k == 4 || k == 5 || k == 10 || k == 11 || k == 14 || k == 15 then 4
    else 0
  }

  function HeadAt(k: nat): string {
    if k == 0 then "apiVersion: v1"
    else if k == 1 then "kind: Config"
    else if k == 2 then "clusters:"
    else if k == 3 then "- cluster:"
    else if k == 4 then "certificate-authority-data:"
    else if k == 5 then "server:"
    else if k == 6 then "name:"
    else if k == 7 then "users:"
    else if k == 8 then "- name:"
    else if k == 9 then "user:"
    else if k == 10 then "client-certificate-data:"
    else if k == 11 then "client-key-data:"
    else if k == 12 then "contexts:"
    else if k == 13 then "- context:"
    else if k == 14 then "cluster:"
    else if k == 15 then "user:"
    else if k == 16 then "name:"
    else "current-context:"
  }

  function ValueAt(c: Config, name: string, k: nat): string {
    if k == 4 then " " + c.ca
    else if k == 5 then " " + c.server
    else if k == 6 then " " + name
    else if k == 8 then " " + c.user
    else if k == 10 then " " + c.cert
    else if k == 11 then " " + c.key
    else if k == 14 then " " + name
    else if k == 15 then " " + c.user
    else if k == 16 || k == 17 then " " + name
    else ""
  }

  function RenderLine(c: Config, name: string, k: nat): string {
    Blanks(PadAt(k)) + HeadAt(k) + ValueAt(c, name, k)
  }

  function RenderLines(c: Config, name: string): (r: seq<string>)
    ensures |r| == SIZE && forall k :: 0 <= k < SIZE ==> r[k] == RenderLine(c, name, k)
  {
    seq(SIZE, k requires 0 <= k < SIZE => RenderLine(c, name, k))
  }

  /** `render_kubeconfig`. */
  function Render(c: Config, clusterName: string): string { Unlines(RenderLines(c, Sanitized(clusterName))) }

  /** The template in full: which field follows which key, under which heading. */
  lemma RenderedText(c: Config, name: string)
    ensures RenderLines(c, name) == [
              "apiVersion: v1", "kind: Config",
              "clusters:", "- cluster:",
              "    certificate-authority-data: " + c.ca, "    server: " + c.server, "  name: " + name,
              "users:", "- name: " + c.user, "  user:",
              "    client-certificate-data: " + c.cert, "    client-key-data: " + c.key,
              "contexts:", "- context:", "    cluster: " + name, "    user: " + c.user, "  name: " + name,
              "current-context: " + name]
  {
    hide RenderLine;
    FixedLines(c, name);
    CaLine(c, name);
    ServerTextLine(c, name);
    UserLine(c, name);
    NestedUserLine(c, name);
    CertLine(c, name);
    KeyLine(c, name);
    MemberLine(c, name);
    NamedLines(c, name);
  }

  lemma FixedLine(c: Config, name: string, k: nat)
    requires PadAt(k) == 0 && ValueAt(c, name, k) == ""
    ensures RenderLine(c, name, k) == HeadAt(k)
  {
    hide HeadAt, PadAt, ValueAt;
    FewBlanks();
    assert "" + HeadAt(k) + "" == HeadAt(k);
  }

  lemma FixedLines(c: Config, name: string)
    ensures RenderLine(c, name, 0) == "apiVersion: v1" && RenderLine(c, name, 1) == "kind: Config"
    ensures RenderLine(c, name, 2) == "clusters:" && RenderLine(c, name, 3) == "- cluster:"
    ensures RenderLine(c, name, 7) == "users:" && RenderLine(c, name, 12) == "contexts:"
    ensures RenderLine(c, name, 13) == "- context:"
  {
    hide RenderLine;
    FixedLine(c, name, 0);
    FixedLine(c, name, 1);
    FixedLine(c, name, 2);
    FixedLine(c, name, 3);
    FixedLine(c, name, 7);
    FixedLine(c, name, 12);
    FixedLine(c, name, 13);
  }

  lemma FewBlanks()
    ensures Blanks(0) == "" && Blanks(2) == "  " && Blanks(4) == "    "
  {
  }

  lemma HeadAndValue(pad: string, head: string, value: string)
    ensures pad + head + (" " + value) == pad + head + " " + value
  {
  }

  lemma CaLine(c: Config, name: string)
    ensures RenderLine(c, name, 4) == "    certificate-authority-data: " + c.ca
  {
    assert HeadAt(4) == "certificate-authority-data:" && PadAt(4) == 4 && ValueAt(c, name, 4) == " " + c.ca;
    hide HeadAt, PadAt, ValueAt;
    FewBlanks();
    HeadAndValue(Blanks(4), "certificate-authority-data:", c.ca);
    CaText();
  }

  lemma ServerTextLine(c: Config, name: string)
    ensures RenderLine(c, name, 5) == "    server: " + c.server
  {
    assert HeadAt(5) == "server:" && PadAt(5) == 4 && ValueAt(c, name, 5) == " " + c.server;
    hide HeadAt, PadAt, ValueAt;
    FewBlanks();
    HeadAndValue(Blanks(4), "server:", c.server);
    assert Blanks(4) + "server:" + " " == "    server: ";
  }

  lemma UserLine(c: Config, name: string)
    ensures RenderLine(c, name, 8) == "- name: " + c.user
  {
    assert HeadAt(8) == "- name:" && PadAt(8) == 0 && ValueAt(c, name, 8) == " " + c.user;
    hide HeadAt, PadAt, ValueAt;
    FewBlanks();
    HeadAndValue(Blanks(0), "- name:", c.user);
    assert Blanks(0) + "- name:" + " " == "- name: ";
  }

  lemma CertLine(c: Config, name: string)
    ensures RenderLine(c, name, 10) == "    client-certificate-data: " + c.cert
  {
    assert HeadAt(10) == "client-certificate-data:" && PadAt(10) == 4 && ValueAt(c, name, 10) == " " + c.cert;
    hide HeadAt, PadAt, ValueAt;
    FewBlanks();
    HeadAndValue(Blanks(4), "client-certificate-data:", c.cert);
    CertText();
  }

  lemma KeyLine(c: Config, name: string)
    ensures RenderLine(c, name, 11) == "    client-key-data: " + c.key
  {
    assert HeadAt(11) == "client-key-data:" && PadAt(11) == 4 && ValueAt(c, name, 11) == " " + c.key;
    hide HeadAt, PadAt, ValueAt;
    FewBlanks();
    HeadAndValue(Blanks(4), "client-key-data:", c.key);
    KeyText();
  }

  lemma MemberLine(c: Config, name: string)
    ensures RenderLine(c, name, 15) == "    user: " + c.user
  {
    assert HeadAt(15) == "user:" && PadAt(15) == 4 && ValueAt(c, name, 15) == " " + c.user;
    hide HeadAt, PadAt, ValueAt;
    FewBlanks();
    HeadAndValue(Blanks(4), "user:", c.user);
    assert Blanks(4) + "user:" + " " == "    user: ";
  }

  lemma CaText()
    ensures Blanks(4) + "certificate-authority-data:" + " " == "    certificate-authority-data: "
  {
    FewBlanks();
    hide Blanks;
  }

  lemma CertText()
    ensures Blanks(4) + "client-certificate-data:" + " " == "    client-certificate-data: "
  {
    FewBlanks();
    hide Blanks;
  }

  lemma KeyText()
    ensures Blanks(4) + "client-key-data:" + " " == "    client-key-data: "
  {
    FewBlanks();
    hide Blanks;
  }

  lemma NestedUserLine(c: Config, name: string)
    ensures RenderLine(c, name, 9) == "  user:"
  {
    assert HeadAt(9) == "user:" && PadAt(9) == 2 && ValueAt(c, name, 9) == "";
    hide HeadAt, PadAt, ValueAt;
    FewBlanks();
  }

  lemma NamedLines(c: Config, name: string)
    ensures RenderLine(c, name, 6) == RenderLine(c, name, 16) == "  name: " + name
    ensures RenderLine(c, name, 14) == "    cluster: " + name
    ensures RenderLine(c, name, 17) == "current-context: " + name
  {
    hide RenderLine;
    TemplateLines(c, name);
    FewBlanks();
    assert "    " + "cluster: " == "    cluster: ";
  }

  predicate GoodConfig(c: Config) {
    Base64(c.ca) && Base64(c.cert) && Base64(c.key) && LF !in c.server && LF !in c.user
  }

  /** The config as it is read back: a CR at the end of the server or the user goes. */
  function ReadBack(c: Config): Config { c.(server := StripCr(c.server), user := StripCr(c.user)) }

  /** A line of which no keyword is the first word. */
  predicate Unkeyed(line: string) { forall k: Keyword :: !Starts(line, k) }

  lemma PaddedIsUnkeyed(n: nat, body: string, line: string)
    requires line == Blanks(n) + body && body != "" && body[0] !in WHITESPACE
    requires forall k: Keyword :: !(Word(k) <= body)
    ensures Unkeyed(line)
  {
    hide Word;
    BlanksAreWhite(n);
    TrimLeftPadded(Blanks(n), body, WHITESPACE);
  }

  /** The keyword of each rendered line. */
  function KeyAt(k: nat): Option<Keyword> {
    if k == 2 then Some(Clusters)
    else if k == 5 then Some(Server)
    else if k == 6 || k == 16 then Some(Name)
    else if k == 7 then Some(Users)
    else if k == 12 then Some(Contexts)
    else if k == 14 then Some(Cluster)
    else if k == 17 then Some(Current)
    else None
  }

  function FlagsAt(k: nat): Flags {
    if k <= 2 then START
    else if k <= 6 then Flags(true, false, false, false)
    else if k == 7 then Flags(true, false, true, false)
    else if k <= 12 then Flags(false, false, true, false)
    else if k <= 16 then Flags(false, true, true, false)
    else Flags(false, true, true, true)
  }

  lemma HeadShape(k: nat)
    ensures var h := HeadAt(k);
            h != "" && h[0] !in WHITESPACE && h[|h| - 1] != CR && forall i :: 0 <= i < |h| ==> h[i] != LF
  {
    hide HeadAt;
    HeadEnds(k);
    if k < 6 {
      EarlyHeadHasNoLf(k);
    } else if k < 12 {
      MiddleHeadHasNoLf(k);
    } else {
      LateHeadHasNoLf(k);
    }
  }

  lemma HeadEnds(k: nat)
    ensures var h := HeadAt(k); h != "" && h[0] !in WHITESPACE && h[|h| - 1] != CR
  {
    hide HeadAt;
    HeadStart(k);
    HeadEnd(k);
  }

  lemma HeadStart(k: nat)
    ensures var h := HeadAt(k);
            && h != ""
            && (h[0] == 'a' || h[0] == 'c' || h[0] == 'k' || h[0] == 'n' || h[0] == 's' || h[0] == 'u' || h[0] == '-')
  {
  }

  lemma HeadEnd(k: nat)
    ensures var h := HeadAt(k); h != "" && (h[|h| - 1] == ':' || h[|h| - 1] == '1' || h[|h| - 1] == 'g')
  {
  }

  lemma EarlyHeadHasNoLf(k: nat)
    requires k < 6
    ensures forall i :: 0 <= i < |HeadAt(k)| ==> HeadAt(k)[i] != LF
  {
  }

  lemma MiddleHeadHasNoLf(k: nat)
    requires 6 <= k < 12
    ensures forall i :: 0 <= i < |HeadAt(k)| ==> HeadAt(k)[i] != LF
  {
  }

  lemma LateHeadHasNoLf(k: nat)
    requires 12 <= k
    ensures forall i :: 0 <= i < |HeadAt(k)| ==> HeadAt(k)[i] != LF
  {
  }

  lemma HeadIsWord(k: nat)
    requires k < SIZE && KeyAt(k).Some?
    ensures HeadAt(k) == Word(KeyAt(k).value)
  {
  }

  /** How the other heads start: not like a keyword. */
  lemma HeadIsNoWord(k: nat)
    requires k < SIZE && KeyAt(k).None?
    ensures var h := HeadAt(k);
            && |h| >= 5
            && (h[0] == 'a' || h[0] == 'k' || h[0] == '-' || (h[0] == 'c' && h[1] == 'e')
                || (h[0] == 'c' && h[1] == 'l' && h[2] == 'i') || (h[0] == 'u' && h[4] == ':'))
  {
  }

  lemma HowWordsStart(w: Keyword)
    ensures var h := Word(w);
            && |h| >= 5
            && ((h[0] == 'c' && (h[1] == 'o' || h[1] == 'u' || (h[1] == 'l' && h[2] == 'u')))
                || (h[0] == 'u' && h[4] == 's') || h[0] == 'n' || h[0] == 's')
  {
  }

  lemma NoWordStarts(k: nat, w: Keyword, t: string)
    requires k < SIZE && KeyAt(k).None? && HeadAt(k) <= t
    ensures !(Word(w) <= t)
  {
    hide *;
    HeadIsNoWord(k);
    HowWordsStart(w);
    if Word(w) <= t {
      SharedChar(t, Word(w), HeadAt(k), 0);
      SharedChar(t, Word(w), HeadAt(k), 1);
      SharedChar(t, Word(w), HeadAt(k), 2);
      SharedChar(t, Word(w), HeadAt(k), 4);
    }
  }

  lemma RenderedLine(c: Config, name: string, k: nat)
    requires k < SIZE
    ensures var line := RenderLine(c, name, k);
            match KeyAt(k)
            case Some(w) => Starts(line, w) && Pad(line) == PadAt(k)
            case None => Unkeyed(line)
  {
    hide *;
    HeadShape(k);
    LineParts(c, name, k);
    var line, t := RenderLine(c, name, k), HeadAt(k) + ValueAt(c, name, k);
    if KeyAt(k).Some? {
      HeadIsWord(k);
      StartsPadded(PadAt(k), KeyAt(k).value, ValueAt(c, name, k), line);
    } else {
      forall w: Keyword ensures !(Word(w) <= t) {
        NoWordStarts(k, w, t);
      }
      PaddedIsUnkeyed(PadAt(k), t, line);
    }
  }

  lemma LineParts(c: Config, name: string, k: nat)
    ensures RenderLine(c, name, k) == Blanks(PadAt(k)) + HeadAt(k) + ValueAt(c, name, k)
    ensures RenderLine(c, name, k) == Blanks(PadAt(k)) + (HeadAt(k) + ValueAt(c, name, k))
  {
    hide HeadAt, ValueAt, PadAt;
  }

  lemma RenderedStep(c: Config, a: string, b: string, k: nat)
    requires k < SIZE
    ensures var line := RenderLine(c, a, k);
            Renamed(FlagsAt(k), line, b) == RenderLine(c, b, k) && NextFlags(FlagsAt(k), line) == FlagsAt(k + 1)
  {
    hide Starts, Pad, HeadAt, RenderLine;
    RenderedLine(c, a, k);
    Exclusive(RenderLine(c, a, k));
    TemplateLines(c, b);
    if k != 6 && k != 14 && k != 16 && k != 17 {
      SameUnlessNamed(c, a, b, k);
    }
  }

  lemma TemplateLines(c: Config, name: string)
    ensures RenderLine(c, name, 6) == RenderLine(c, name, 16) == "  name: " + name
    ensures RenderLine(c, name, 14) == Blanks(4) + "cluster: " + name
    ensures RenderLine(c, name, 17) == "current-context: " + name
  {
    hide *;
    NameTemplate(c, name, 6);
    NameTemplate(c, name, 16);
    ClusterTemplate(c, name);
    CurrentTemplate(c, name);
  }

  lemma NameTemplate(c: Config, name: string, k: nat)
    requires k == 6 || k == 16
    ensures RenderLine(c, name, k) == "  name: " + name
  {
    assert HeadAt(k) == "name:" && PadAt(k) == 2 && ValueAt(c, name, k) == " " + name;
    hide HeadAt, PadAt, ValueAt;
  }

  lemma ClusterTemplate(c: Config, name: string)
    ensures RenderLine(c, name, 14) == Blanks(4) + "cluster: " + name
  {
    assert HeadAt(14) == "cluster:" && PadAt(14) == 4 && ValueAt(c, name, 14) == " " + name;
    hide HeadAt, PadAt, ValueAt;
  }

  lemma CurrentTemplate(c: Config, name: string)
    ensures RenderLine(c, name, 17) == "current-context: " + name
  {
    assert HeadAt(17) == "current-context:" && PadAt(17) == 0 && ValueAt(c, name, 17) == " " + name;
    hide HeadAt, PadAt, ValueAt;
  }

  lemma SameUnlessNamed(c: Config, a: string, b: string, k: nat)
    requires k < SIZE && k != 6 && k != 14 && k != 16 && k != 17
    ensures RenderLine(c, a, k) == RenderLine(c, b, k)
  {
  }

  lemma {:induction false} RenderedFrom(c: Config, a: string, b: string, k: nat)
    requires k <= SIZE
    ensures RenameLines(RenderLines(c, a)[k..], FlagsAt(k), b) == RenderLines(c, b)[k..]
    decreases SIZE - k
  {
    hide Renamed, NextFlags, FlagsAt, RenderLine;
    if k < SIZE {
      RenderedStep(c, a, b, k);
      RenderedFrom(c, a, b, k + 1);
      assert RenderLines(c, a)[k..][1..] == RenderLines(c, a)[k + 1..];
      assert RenderLines(c, b)[k..] == [RenderLines(c, b)[k]] + RenderLines(c, b)[k + 1..];
    }
  }

  lemma RenderedLineRead(c: Config, name: string, k: nat)
    requires GoodConfig(c) && CleanName(name) && k < SIZE
    ensures LF !in RenderLine(c, name, k)
    ensures StripCr(RenderLine(c, name, k)) == RenderLine(ReadBack(c), name, k)
  {
    hide *;
    HeadShape(k);
    PlainTexts(c, name);
    LineParts(c, name, k);
    LineParts(ReadBack(c), name, k);
    ValueRead(c, name, k);
    BlanksHaveNoLf(PadAt(k));
    StrippedTail(Blanks(PadAt(k)) + HeadAt(k), ValueAt(c, name, k));
  }

  lemma BlanksHaveNoLf(n: nat)
    ensures forall i :: 0 <= i < |Blanks(n)| ==> Blanks(n)[i] != LF
  {
  }

  lemma ValueRead(c: Config, name: string, k: nat)
    requires LF !in c.ca && LF !in c.cert && LF !in c.key && LF !in name && LF !in c.server && LF !in c.user
    requires CR !in c.ca && CR !in c.cert && CR !in c.key && CR !in name
    ensures forall i :: 0 <= i < |ValueAt(c, name, k)| ==> ValueAt(c, name, k)[i] != LF
    ensures StripCr(ValueAt(c, name, k)) == ValueAt(ReadBack(c), name, k)
  {
    StrippedTail(" ", c.server);
    StrippedTail(" ", c.user);
  }

  lemma StrippedTail(start: string, tail: string)
    requires start != "" && start[|start| - 1] != CR
    ensures StripCr(start + tail) == start + StripCr(tail)
  {
  }

  lemma PlainTexts(c: Config, name: string)
    requires GoodConfig(c) && CleanName(name)
    ensures LF !in c.ca && LF !in c.cert && LF !in c.key && LF !in name && LF !in c.server && LF !in c.user
    ensures CR !in c.ca && CR !in c.cert && CR !in c.key && CR !in name
  {
  }

  /** The rendered lines as they are read back. */
  lemma RenderedLinesRead(c: Config, name: string)
    requires GoodConfig(c) && CleanName(name)
    ensures Lines(Unlines(RenderLines(c, name))) == RenderLines(ReadBack(c), name)
    ensures Split(Unlines(RenderLines(c, name))).complete == RenderLines(c, name)
  {
    hide Unlines, Lines, Split, RenderLine, StripCr;
    var lines := RenderLines(c, name);
    forall k | 0 <= k < SIZE
      ensures LF !in lines[k] && StripCr(lines[k]) == RenderLine(ReadBack(c), name, k)
    {
      RenderedLineRead(c, name, k);
    }
    assert StripCrs(lines) == RenderLines(ReadBack(c), name);
    SplitOfUnlines(lines);
  }

  /** Renaming printed text is printing with the new name, up to CRs at the ends of the server and
      the user, and so exactly for those that end in none. */
  lemma RenameOfRendered(c: Config, a: string, b: string)
    requires GoodConfig(c)
    ensures Rename(Render(c, a), b) == Render(ReadBack(c), b)
    ensures Rename(Render(c, a), b) == Render(c, b) <==> CleanLine(c.server) && CleanLine(c.user)
  {
    hide Unlines, Lines, Split, RenderLines, RenameLines, Sanitized, GoodConfig;
    SanitizedIsClean(a);
    SanitizedIsClean(b);
    RenderedLinesRead(c, Sanitized(a));
    RenderedFrom(ReadBack(c), Sanitized(a), Sanitized(b), 0);
    WholeFromStart(RenderLines(ReadBack(c), Sanitized(a)));
    WholeFromStart(RenderLines(ReadBack(c), Sanitized(b)));
    ReadBackIsGood(c);
    RenderedTextEqual(c, Sanitized(b));
  }

  lemma WholeFromStart(lines: seq<string>)
    ensures lines[0..] == lines
  {
  }

  lemma ReadBackIsGood(c: Config)
    requires GoodConfig(c)
    ensures GoodConfig(ReadBack(c)) && (ReadBack(c) == c <==> CleanLine(c.server) && CleanLine(c.user))
  {
  }

  lemma RenderedTextEqual(c: Config, name: string)
    requires GoodConfig(c) && CleanName(name)
    ensures Unlines(RenderLines(ReadBack(c), name)) == Unlines(RenderLines(c, name)) <==> ReadBack(c) == c
  {
    hide Unlines, Split, RenderLine, GoodConfig, CleanName;
    ReadBackIsGood(c);
    RenderedLinesRead(c, name);
    RenderedLinesRead(ReadBack(c), name);
    if RenderLines(ReadBack(c), name) == RenderLines(c, name) {
      assert RenderLines(ReadBack(c), name)[5] == RenderLines(c, name)[5];
      assert RenderLines(ReadBack(c), name)[15] == RenderLines(c, name)[15];
      SameValue(c, name);
    }
  }

  lemma SameValue(c: Config, name: string)
    requires RenderLine(ReadBack(c), name, 5) == RenderLine(c, name, 5)
    requires RenderLine(ReadBack(c), name, 15) == RenderLine(c, name, 15)
    ensures ReadBack(c) == c
  {
    hide HeadAt;
    assert |RenderLine(c, name, 5)| == 4 + |HeadAt(5)| + 1 + |c.server|;
    assert |RenderLine(c, name, 15)| == 4 + |HeadAt(15)| + 1 + |c.user|;
    assert |ReadBack(c).server| == |c.server| && |ReadBack(c).user| == |c.user|;
  }

  lemma ServedIs(line: string, url: string)
    ensures Starts(line, Server) ==> Served(line, url) == Blanks(Pad(line)) + "server: " + Trim(url)
    ensures !Starts(line, Server) ==> Served(line, url) == line
  {
  }

  lemma NotServer(line: string, k: nat)
    requires match KeyAt(k) case Some(w) => Starts(line, w) case None => Unkeyed(line)
    ensures KeyAt(k) != Some(Server) ==> !Starts(line, Server)
  {
    hide Starts, KeyAt;
    Exclusive(line);
  }

  lemma ServerAtFive(k: nat)
    ensures KeyAt(k) == Some(Server) <==> k == 5
    ensures PadAt(5) == 4
  {
  }

  lemma ServerTemplate(c: Config, name: string, server: string)
    ensures RenderLine(c.(server := server), name, 5) == Blanks(4) + "server: " + server
  {
  }

  lemma SameUnlessServer(c: Config, name: string, server: string, k: nat)
    requires k != 5
    ensures RenderLine(c.(server := server), name, k) == RenderLine(c, name, k)
  {
  }

  /** Rewriting printed text is printing with the new server, trimmed, exactly if the user does
      not end in a CR; what the old server was does not matter. */
  lemma {:induction false} RewriteOfRendered(c: Config, name: string, url: string)
    requires GoodConfig(c) && OneLine(url)
    ensures Rewrite(Render(c, name), url) == Render(c.(server := Trim(url)), name) <==> CleanLine(c.user)
  {
    hide Unlines, Lines, Split, RenderLine, Sanitized, GoodConfig, Served, Trim, Starts, Pad, KeyAt, PadAt, Unkeyed,
      Blanks;
    var n, r := Sanitized(name), ReadBack(c);
    SanitizedIsClean(name);
    RenderedLinesRead(c, n);
    forall k | 0 <= k < SIZE ensures Served(RenderLine(r, n, k), url) == RenderLine(r.(server := Trim(url)), n, k) {
      RenderedLine(r, n, k);
      ServedIs(RenderLine(r, n, k), url);
      NotServer(RenderLine(r, n, k), k);
      ServerAtFive(k);
      ServerTemplate(r, n, Trim(url));
      if k != 5 {
        SameUnlessServer(r, n, Trim(url), k);
      }
    }
    assert ServeLines(RenderLines(r, n), url) == RenderLines(r.(server := Trim(url)), n);
    var d := c.(server := Trim(url));
    TrimmedEnd(url);
    NewServer(c, url);
    RenderedTextEqual(d, n);
    ReadBackIsGood(d);
  }

  lemma NewServer(c: Config, url: string)
    requires GoodConfig(c) && OneLine(url)
    ensures var d := c.(server := Trim(url));
            && GoodConfig(d) && CleanLine(d.server) && ReadBack(d) == ReadBack(c).(server := Trim(url))
  {
    hide Trim, Base64;
    TrimmedEnd(url);
  }

  // ----- reading the server back

  /** The host of a server URL; no host if it is empty and not bracketed. */
  function HostOf(server: string): Option<string> {
    var hostPort := TrimPrefixes(TrimPrefixes(server, "https://"), "http://");
    if hostPort != "" && hostPort[0] == '[' then Some(BeforeFirst(hostPort[1..], ']'))
    else
      var host := Trim(BeforeFirst(hostPort, ':'));
      if host == "" then None else Some(host)
  }

  function LineHost(line: string): Option<string> {
    if Starts(line, Server) then HostOf(Trim(TrimStart(line)[|Word(Server)|..])) else None
  }

  function HostIn(lines: seq<string>): Option<string> {
    if lines == [] then None
    else if LineHost(lines[0]).Some? then LineHost(lines[0])
    else HostIn(lines[1..])
  }

  /** `kubeconfig_server_host`. */
  method KubeconfigServerHost(text: string) returns (r: Option<string>)
    ensures r == HostIn(Lines(text))
  {
    hide LineHost, Lines;
    var lines := Lines(text);
    for k := 0 to |lines|
      invariant HostIn(lines[k..]) == HostIn(lines)
    {
      assert lines[k..][1..] == lines[k + 1..];
      var host := LineHost(lines[k]);
      if host.Some? {
        return host;
      }
    }
    return None;
  }

  lemma ServedHost(line: string, url: string)
    requires OneLine(url)
    ensures LineHost(StripCr(Served(line, url))) == if Starts(line, Server) then HostOf(Trim(url)) else None
  {
    hide Starts, Pad, HostOf, Trim, Word, Alike;
    ServedLine(line, url);
    StripAlike(Served(line, url));
    AlikeTransitive(line, Served(line, url), StripCr(Served(line, url)));
    AlikeServer(line, StripCr(Served(line, url)));
    if Starts(line, Server) {
      ServerText(Pad(line), url);
    }
  }

  lemma ServerText(n: nat, url: string)
    ensures var l := Blanks(n) + "server: " + Trim(url);
            && |Word(Server)| <= |TrimStart(l)| && Trim(TrimStart(l)[|Word(Server)|..]) == Trim(url)
  {
    hide *;
    var u := Trim(url);
    BlanksAreWhite(n);
    Assoc(Blanks(n), "server: ", u);
    ServerWord(u);
    TrimLeftPadded(Blanks(n), "server: " + u, WHITESPACE);
    TrimStartIs(Blanks(n) + "server: " + u);
    TrimOfTrimmed(url);
  }

  lemma TrimStartIs(s: string)
    ensures TrimStart(s) == TrimLeft(s, WHITESPACE)
  {
  }

  lemma ServerWord(u: string)
    ensures var t := "server: " + u; t[0] !in WHITESPACE && |Word(Server)| <= |t| && t[|Word(Server)|..] == " " + u
  {
  }

  lemma TrimOfTrimmed(s: string)
    ensures Trim(" " + Trim(s)) == Trim(s)
  {
    hide TrimRight;
    var t := Trim(s);
    TrimmedEnds(s);
    TrimLeftPadded(" ", t, WHITESPACE);
    TrimRightPadded(t, "", WHITESPACE);
    assert t + "" == t;
  }

  lemma TrimmedEnds(s: string)
    ensures Trim(s) == "" || (Trim(s)[0] !in WHITESPACE && Trim(s)[|Trim(s)| - 1] !in WHITESPACE)
  {
    var a := TrimStart(s);
    assert Trim(s) != "" ==> Trim(s)[0] == a[0];
  }

  lemma {:induction false} HostInServed(lines: seq<string>, url: string)
    requires OneLine(url)
    ensures HostIn(StripCrs(ServeLines(lines, url)))
         == if exists l :: l in lines && Starts(l, Server) then HostOf(Trim(url)) else None
  {
    hide Starts, Served, LineHost, HostOf, StripCr, OneLine, Trim;
    if lines != [] {
      ServedHost(lines[0], url);
      HostInServed(lines[1..], url);
      assert lines == [lines[0]] + lines[1..];
      assert StripCrs(ServeLines(lines, url))[1..] == StripCrs(ServeLines(lines[1..], url));
    }
  }

  /** After a rewrite the host read from the text is the host of the new URL, for every text with
      a server line, and none for the others. */
  lemma RewriteThenHost(text: string, url: string)
    requires OneLine(url)
    ensures HostIn(Lines(Rewrite(text, url)))
         == if exists l :: l in Lines(text) && Starts(l, Server) then HostOf(Trim(url)) else None
  {
    hide Lines, Unlines, Starts, Served, HostOf, OneLine;
    LinesHaveNoLf(text);
    ServedHaveNoLf(Lines(text), url);
    SplitOfUnlines(ServeLines(Lines(text), url));
    HostInServed(Lines(text), url);
  }

  lemma ColonSplits(host: string, port: string)
    requires ':' !in port
    ensures BeforeFirst(host + ":" + port, ':') == host <==> ':' !in host
    ensures Trim(BeforeFirst(host + ":" + port, ':')) == host ==> ':' !in host
  {
    hide Trim, FindChar, BeforeFirst;
    if ':' !in host {
      InitialCluster.BeforeFirstIs(host, ':', port);
      assert host + [':'] + port == host + ":" + port;
    } else {
      var i :| 0 <= i < |host| && host[i] == ':';
      FirstColonIsEarlier(host + ":" + port, i);
      TrimIsShorter(BeforeFirst(host + ":" + port, ':'));
    }
  }

  lemma FirstColonIsEarlier(s: string, i: nat)
    requires i < |s| && s[i] == ':'
    ensures |BeforeFirst(s, ':')| <= i
  {
  }

  lemma TrimIsShorter(s: string)
    ensures |Trim(s)| <= |s|
  {
  }

  /** The host of a server URL is read as it is for bracketed addresses and for hosts without colon,
      and for no others. */
  lemma {:induction false} HostOfUrl(e: InitialCluster.Endpoint)
    requires InitialCluster.CleanEndpoint(e)
    ensures HostOf("https://" + InitialCluster.HostPort(e)) == Some(e.host) <==> e.Bracketed? || ':' !in e.host
  {
    hide TrimPrefixes, BeforeFirst, Trim, InitialCluster.CleanText;
    var hp := InitialCluster.HostPort(e);
    InitialCluster.HostPortIsClean(e);
    InitialCluster.UrlIsTrimmed(hp);
    InitialCluster.SchemeGoes(hp);
    InitialCluster.CleanNotEmpty(e.host);
    match e
    case Plain(host, port) =>
      assert hp[0] == host[0] && host[0] in host;
      ColonSplits(host, port);
      CleanIsTrimmed(host);
    case Bracketed(host, port) =>
      assert hp[1..] == host + [']'] + (":" + port);
      InitialCluster.BeforeFirstIs(host, ']', ":" + port);
  }

  lemma CleanIsTrimmed(s: string)
    requires InitialCluster.CleanText(s)
    ensures Trim(s) == s
  {
    hide Trim, InitialCluster.CleanChar, InitialCluster.CleanText;
    InitialCluster.CleanHasNone(s);
    TrimKeeps(s);
  }

  /** So after a rewrite to such a URL its host is what is read from any text with a server line. */
  lemma {:induction false} RewrittenHostIsRead(text: string, e: InitialCluster.Endpoint)
    requires InitialCluster.CleanEndpoint(e) && (e.Bracketed? || ':' !in e.host)
    requires exists l :: l in Lines(text) && Starts(l, Server)
    ensures HostIn(Lines(Rewrite(text, "https://" + InitialCluster.HostPort(e)))) == Some(e.host)
  {
    hide Lines, Rewrite, HostIn, HostOf, Starts, Trim, InitialCluster.CleanText;
    var hp := InitialCluster.HostPort(e);
    InitialCluster.HostPortIsClean(e);
    InitialCluster.UrlIsTrimmed(hp);
    CleanIsOneLine(hp);
    RewriteThenHost(text, "https://" + hp);
    HostOfUrl(e);
  }

  lemma CleanIsOneLine(s: string)
    requires InitialCluster.CleanText(s)
    ensures LF !in "https://" + s
  {
    assert forall i :: 0 <= i < |s| ==> InitialCluster.CleanChar(s[i]);
  }
}
