/** Rewriting a node's advertise address in stored files (`replace_ip_token` in
    `crates/pertisk-bootstrap/src/lib.rs`): a substring scan that is meant to touch whole
    addresses only. */
module AddressRewrite {
  import opened Text

  predicate IsDigit(c: char) { '0' <= c <= '9' }

  /** The scan: replace an occurrence unless a digit stands right before it, in what is left to
      scan, or right after it. */
  function Scan(rest: string, src: string, dst: string): string
    requires src != ""
    decreases |rest|
  {
    match Find(rest, src)
    case None => rest
    case Some(i) =>
      rest[..i] + (if Bounded(rest, i, i + |src|) then dst else src) + Scan(rest[i + |src|..], src, dst)
  }

  predicate Bounded(s: string, i: nat, j: nat)
    requires i <= j <= |s|
  {
    (i == 0 || !IsDigit(s[i - 1])) && (j == |s| || !IsDigit(s[j]))
  }

  function ReplaceIpToken(haystack: string, src: string, dst: string): string {
    if src == "" || src == dst then haystack else Scan(haystack, src, dst)
  }

  /** What a round of the scan emits: the text before the occurrence, and the occurrence or its
      replacement. */
  function Emitted(rest: string, src: string, dst: string, i: nat): string
    requires i + |src| <= |rest|
  {
    rest[..i] + if Bounded(rest, i, i + |src|) then dst else src
  }

  method ReplaceIpTokenLoop(haystack: string, src: string, dst: string) returns (out: string)
    ensures out == ReplaceIpToken(haystack, src, dst)
  {
    hide *;
    ReplaceIsScan(haystack, src, dst);
    if src == "" || src == dst {
      return haystack;
    }
    out := "";
    var rest := haystack;
    var next := Find(rest, src);
    while next.Some?
      invariant next == Find(rest, src)
      invariant out + Scan(rest, src, dst) == Scan(haystack, src, dst)
      decreases |rest|
    {
      ScanStep(rest, src, dst);
      var i := next.value;
      Assoc(out, Emitted(rest, src, dst, i), Scan(rest[i + |src|..], src, dst));
      out := out + Emitted(rest, src, dst, i);
      rest := rest[i + |src|..];
      next := Find(rest, src);
    }
    ScanStep(rest, src, dst);
    out := out + rest;
  }

  lemma ReplaceIsScan(haystack: string, src: string, dst: string)
    ensures ReplaceIpToken(haystack, src, dst)
         == if src == "" || src == dst then haystack else Scan(haystack, src, dst)
    ensures src != "" ==> "" + Scan(haystack, src, dst) == Scan(haystack, src, dst)
  {
    hide Scan;
  }

  lemma ScanStep(rest: string, src: string, dst: string)
    requires src != ""
    ensures Find(rest, src).None? ==> Scan(rest, src, dst) == rest
    ensures Find(rest, src).Some? ==>
              var i := Find(rest, src).value;
              && i + |src| <= |rest|
              && Scan(rest, src, dst) == Emitted(rest, src, dst, i) + Scan(rest[i + |src|..], src, dst)
  {
    hide Find, Bounded;
  }

  // ----- addresses as tokens

  predicate TokenChar(c: char) { IsDigit(c) || c == '.' }

  predicate AllToken(s: string) { forall i :: 0 <= i < |s| ==> TokenChar(s[i]) }

  /** Length of the run of digits and dots the text starts with. */
  function RunLength(s: string): (n: nat)
    ensures n <= |s| && AllToken(s[..n])
    ensures n < |s| ==> !TokenChar(s[n])
  {
    if s == "" || !TokenChar(s[0]) then 0
    else
      var n := RunLength(s[1..]);
      assert s[..n + 1] == [s[0]] + s[1..][..n];
      n + 1
  }

  function Dots(s: string): nat {
    if s == "" then 0 else (if s[0] == '.' then 1 else 0) + Dots(s[1..])
  }

  /** Exactly the maximal runs equal to `src` become `dst`. */
  function MapRuns(s: string, src: string, dst: string): string
    decreases |s|
  {
    if s == "" then ""
    else if !TokenChar(s[0]) then [s[0]] + MapRuns(s[1..], src, dst)
    else
      var n := RunLength(s);
      (if s[..n] == src then dst else s[..n]) + MapRuns(s[n..], src, dst)
  }

  /** No maximal run has more than three dots. */
  predicate SparseRuns(s: string)
    decreases |s|
  {
    s == "" ||
    (if !TokenChar(s[0]) then SparseRuns(s[1..])
     else var n := RunLength(s); Dots(s[..n]) <= 3 && SparseRuns(s[n..]))
  }

  predicate HasRun(s: string, run: string)
    decreases |s|
  {
    s != "" &&
    (if !TokenChar(s[0]) then HasRun(s[1..], run)
     else var n := RunLength(s); s[..n] == run || HasRun(s[n..], run))
  }

  /** Does the scan, started at the text, find an occurrence that its guard lets through? The guard
      looks at the character before it, in what is left to scan, and at the one after it. */
  predicate Hit(s: string, src: string)
    requires src != ""
    decreases |s|
  {
    match Find(s, src)
    case None => false
    case Some(i) => Bounded(s, i, i + |src|) || Hit(s[i + |src|..], src)
  }

  /** No maximal run is hit but those that are the address. */
  predicate OnlyTokensHit(s: string, src: string)
    requires src != ""
    decreases |s|
  {
    s == "" ||
    (if !TokenChar(s[0]) then OnlyTokensHit(s[1..], src)
     else var n := RunLength(s); (s[..n] == src || !Hit(s[..n], src)) && OnlyTokensHit(s[n..], src))
  }

  predicate DottedQuad(q: string) {
    q != "" && AllToken(q) && IsDigit(q[0]) && IsDigit(q[|q| - 1]) && Dots(q) == 3
  }

  // ----- runs and occurrences

  lemma {:induction false} DotsAppend(a: string, b: string)
    ensures Dots(a + b) == Dots(a) + Dots(b)
  {
    if a == "" {
      assert a + b == b;
    } else {
      assert (a + b)[1..] == a[1..] + b;
      DotsAppend(a[1..], b);
    }
  }

  lemma {:induction false} NoDots(s: string, i: nat)
    requires Dots(s) == 0 && i < |s|
    ensures s[i] != '.'
  {
    if i > 0 {
      NoDots(s[1..], i - 1);
    }
  }

  /** A run ends where the tokens end. */
  lemma {:induction false} RunLengthIs(run: string, rest: string)
    requires AllToken(run) && (rest == "" || !TokenChar(rest[0]))
    ensures RunLength(run + rest) == |run|
    ensures (run + rest)[..|run|] == run && (run + rest)[|run|..] == rest
  {
    if run == "" {
      assert run + rest == rest;
    } else {
      assert (run + rest)[1..] == run[1..] + rest;
      RunLengthIs(run[1..], rest);
    }
  }

  lemma {:induction false} MapRunsOfRun(run: string, rest: string, src: string, dst: string)
    requires AllToken(run) && (rest == "" || !TokenChar(rest[0])) && src != ""
    ensures MapRuns(run + rest, src, dst) == (if run == src then dst else run) + MapRuns(rest, src, dst)
  {
    RunLengthIs(run, rest);
    if run == "" {
      assert run + rest == rest;
    }
  }

  lemma QuadShape(src: string)
    requires DottedQuad(src)
    ensures src != "" && AllToken(src) && Dots(src) == 3 && IsDigit(src[0])
  {
  }

  // ----- the scan, piece by piece

  /** Not both sides of the cut have a token character at it. */
  predicate CleanCut(a: string, rest: string) {
    a == "" || rest == "" || !TokenChar(a[|a| - 1]) || !TokenChar(rest[0])
  }

  lemma OccursLeft(a: string, rest: string, p: string, j: nat)
    requires j + |p| <= |a|
    ensures OccursAt(a + rest, p, j) <==> OccursAt(a, p, j)
  {
    assert (a + rest)[j..j + |p|] == a[j..j + |p|];
  }

  lemma OccursRight(a: string, rest: string, p: string, j: nat)
    ensures OccursAt(a + rest, p, |a| + j) <==> OccursAt(rest, p, j)
  {
    if j + |p| <= |rest| {
      assert (a + rest)[|a| + j..|a| + j + |p|] == rest[j..j + |p|];
    }
  }

  /** No occurrence of an address goes across a clean cut. */
  lemma NothingAcross(a: string, rest: string, src: string, j: nat)
    requires AllToken(src) && CleanCut(a, rest) && j < |a| < j + |src|
    ensures !OccursAt(a + rest, src, j)
  {
    if OccursAt(a + rest, src, j) {
      OccurrenceIsToken(a + rest, src, j, |a| - 1);
      OccurrenceIsToken(a + rest, src, j, |a|);
    }
  }

  lemma OccurrenceIsToken(s: string, src: string, j: nat, k: nat)
    requires AllToken(src) && OccursAt(s, src, j) && j <= k < j + |src|
    ensures k < |s| && TokenChar(s[k])
  {
    assert s[j..j + |src|][k - j] == s[k];
  }

  lemma FindInLeft(a: string, rest: string, src: string)
    requires src != "" && AllToken(src) && CleanCut(a, rest)
    ensures Find(a, src).Some? ==> Find(a + rest, src) == Find(a, src)
    ensures Find(a, src).None? && Find(rest, src).Some? ==> Find(a + rest, src) == Some(|a| + Find(rest, src).value)
    ensures Find(a, src).None? && Find(rest, src).None? ==> Find(a + rest, src).None?
  {
    hide Find, OccursAt, Contains, CleanCut, AllToken;
    var s := a + rest;
    if Find(a, src).Some? {
      var i := Find(a, src).value;
      OccursFits(a, src, i);
      OccursLeft(a, rest, src, i);
      forall j: nat | j < i ensures !OccursAt(s, src, j) {
        OccursInPart(a, rest, src, j);
      }
      FindIs(s, src, i);
    } else {
      FindNone(a, src);
      forall j: nat | j < |a| ensures !OccursAt(s, src, j) {
        OccursInPart(a, rest, src, j);
      }
      if Find(rest, src).Some? {
        FindBehind(a, rest, src, Find(rest, src).value);
      } else {
        FindNone(rest, src);
        forall j: nat ensures !OccursAt(s, src, j) {
          if j >= |a| {
            OccursRight(a, rest, src, j - |a|);
          }
        }
        FindNone(s, src);
      }
    }
  }

  lemma FindBehind(a: string, rest: string, src: string, k: nat)
    requires Find(rest, src) == Some(k) && forall j: nat :: j < |a| ==> !OccursAt(a + rest, src, j)
    ensures Find(a + rest, src) == Some(|a| + k)
  {
    hide Find, OccursAt, Contains;
    OccursRight(a, rest, src, k);
    forall j: nat | j < |a| + k ensures !OccursAt(a + rest, src, j) {
      if j >= |a| {
        OccursRight(a, rest, src, j - |a|);
      }
    }
    FindIs(a + rest, src, |a| + k);
  }

  lemma OccursFits(s: string, p: string, i: nat)
    requires OccursAt(s, p, i)
    ensures i + |p| <= |s|
  {
  }

  /** Nothing found is nothing there. */
  lemma FindNone(s: string, p: string)
    ensures Find(s, p).None? <==> forall j: nat :: !OccursAt(s, p, j)
  {
    if forall j: nat :: !OccursAt(s, p, j) {
      assert Find(s, p).None?;
    }
  }

  lemma OccursInPart(a: string, rest: string, src: string, j: nat)
    requires AllToken(src) && CleanCut(a, rest) && j < |a|
    ensures OccursAt(a + rest, src, j) ==> OccursAt(a, src, j)
  {
    hide AllToken, CleanCut, OccursAt;
    if j + |src| <= |a| {
      OccursLeft(a, rest, src, j);
    } else {
      NothingAcross(a, rest, src, j);
    }
  }

  /** The guard sees no digit across a clean cut. */
  lemma BoundedLeft(a: string, rest: string, i: nat, j: nat)
    requires i < j <= |a| && CleanCut(a, rest) && TokenChar(a[j - 1])
    ensures Bounded(a + rest, i, j) == Bounded(a, i, j)
  {
  }

  lemma BoundedRight(a: string, rest: string, i: nat, j: nat)
    requires i < j <= |rest| && CleanCut(a, rest) && TokenChar(rest[i])
    ensures Bounded(a + rest, |a| + i, |a| + j) == Bounded(rest, i, j)
  {
  }

  lemma OccursChars(s: string, src: string, i: nat)
    requires OccursAt(s, src, i) && src != "" && AllToken(src)
    ensures i + |src| <= |s| && TokenChar(s[i]) && TokenChar(s[i + |src| - 1])
  {
    assert s[i..i + |src|][0] == s[i];
    assert s[i..i + |src|][|src| - 1] == s[i + |src| - 1];
  }

  /** Across a clean cut the scan works on both sides on their own. */
  lemma {:induction false} ScanSplits(a: string, rest: string, src: string, dst: string)
    requires src != "" && AllToken(src) && CleanCut(a, rest)
    ensures Scan(a + rest, src, dst) == Scan(a, src, dst) + Scan(rest, src, dst)
    decreases |a|
  {
    hide *;
    var s := a + rest;
    FindInLeft(a, rest, src);
    ScanStep(a, src, dst);
    ScanStep(s, src, dst);
    if Find(a, src).Some? {
      var i := Find(a, src).value;
      var j := i + |src|;
      OccursChars(a, src, i);
      BoundedLeft(a, rest, i, j);
      EmittedLeft(a, rest, src, dst, i);
      CleanTail(a, rest, j);
      ScanSplits(a[j..], rest, src, dst);
      assert s[j..] == a[j..] + rest;
      Assoc(Emitted(a, src, dst, i), Scan(a[j..], src, dst), Scan(rest, src, dst));
    } else {
      ScanStep(rest, src, dst);
      if Find(rest, src).Some? {
        var k := Find(rest, src).value;
        OccursChars(rest, src, k);
        BoundedRight(a, rest, k, k + |src|);
        EmittedRight(a, rest, src, dst, k);
        assert s[|a| + k + |src|..] == rest[k + |src|..];
        Assoc(a, Emitted(rest, src, dst, k), Scan(rest[k + |src|..], src, dst));
      }
    }
  }

  lemma CleanTail(a: string, rest: string, j: nat)
    requires CleanCut(a, rest) && j <= |a|
    ensures CleanCut(a[j..], rest)
  {
  }

  lemma EmittedLeft(a: string, rest: string, src: string, dst: string, i: nat)
    requires i + |src| <= |a| && Bounded(a + rest, i, i + |src|) == Bounded(a, i, i + |src|)
    ensures Emitted(a + rest, src, dst, i) == Emitted(a, src, dst, i)
  {
    hide Bounded;
    assert (a + rest)[..i] == a[..i];
  }

  lemma EmittedRight(a: string, rest: string, src: string, dst: string, k: nat)
    requires k + |src| <= |rest| && Bounded(a + rest, |a| + k, |a| + k + |src|) == Bounded(rest, k, k + |src|)
    ensures Emitted(a + rest, src, dst, |a| + k) == a + Emitted(rest, src, dst, k)
  {
    hide Bounded;
    assert (a + rest)[..|a| + k] == a + rest[..k];
  }

  // ----- what a scan changes

  /** `a` is longer than `b`, shorter or different, as `src` is compared to `dst`. */
  predicate Drifts(a: string, b: string, src: string, dst: string) {
    if |dst| > |src| then |a| > |b|
    else if |dst| < |src| then |a| < |b|
    else |a| == |b| && a != b
  }

  /** Equal, or drifted. */
  predicate EqualOrDrifts(a: string, b: string, src: string, dst: string, equal: bool) {
    if equal then a == b else Drifts(a, b, src, dst)
  }

  lemma JoinDrifts(a: string, b: string, x: string, y: string, src: string, dst: string, p: bool, q: bool)
    requires EqualOrDrifts(a, b, src, dst, p) && EqualOrDrifts(x, y, src, dst, q)
    ensures EqualOrDrifts(a + x, b + y, src, dst, p && q)
  {
    if |a| == |b| && a + x == b + y {
      assert (a + x)[..|a|] == a && (b + y)[..|b|] == b;
      assert (a + x)[|a|..] == x && (b + y)[|b|..] == y;
    }
  }

  lemma DriftIsDifference(a: string, b: string, src: string, dst: string, equal: bool)
    requires EqualOrDrifts(a, b, src, dst, equal)
    ensures a == b <==> equal
  {
  }

  /** The scan leaves a text alone iff it does not hit it. */
  lemma {:induction false} ScanHits(s: string, src: string, dst: string)
    requires src != "" && src != dst
    ensures EqualOrDrifts(Scan(s, src, dst), s, src, dst, !Hit(s, src))
    decreases |s|
  {
    hide *;
    ScanStep(s, src, dst);
    HitStep(s, src);
    if Find(s, src).Some? {
      var i := Find(s, src).value;
      ScanHits(s[i + |src|..], src, dst);
      EmittedDrifts(s, src, dst, i);
      JoinDrifts(Emitted(s, src, dst, i), s[..i + |src|], Scan(s[i + |src|..], src, dst), s[i + |src|..], src, dst,
        !Bounded(s, i, i + |src|), !Hit(s[i + |src|..], src));
      assert s == s[..i + |src|] + s[i + |src|..];
    } else {
      NoDrift(s, src, dst);
    }
  }

  lemma NoDrift(s: string, src: string, dst: string)
    ensures EqualOrDrifts(s, s, src, dst, true)
  {
  }

  lemma HitStep(s: string, src: string)
    requires src != ""
    ensures Find(s, src).None? ==> !Hit(s, src)
    ensures Find(s, src).Some? ==>
              var i := Find(s, src).value;
              i + |src| <= |s| && OccursAt(s, src, i)
              && (Hit(s, src) <==> Bounded(s, i, i + |src|) || Hit(s[i + |src|..], src))
  {
    hide Find, Bounded;
  }

  lemma EmittedDrifts(s: string, src: string, dst: string, i: nat)
    requires i + |src| <= |s| && OccursAt(s, src, i) && src != dst
    ensures EqualOrDrifts(Emitted(s, src, dst, i), s[..i + |src|], src, dst, !Bounded(s, i, i + |src|))
  {
    hide Bounded;
    assert s[..i + |src|] == s[..i] + src;
    SamePrefix(s[..i], src, dst);
  }

  lemma SamePrefix(before: string, src: string, dst: string)
    ensures before + dst == before + src ==> dst == src
  {
    assert (before + dst)[|before|..] == dst && (before + src)[|before|..] == src;
  }

  /** The first run or character of a text. */
  function PieceLength(s: string): (n: nat)
    requires s != ""
    ensures 0 < n <= |s|
  {
    if TokenChar(s[0]) then RunLength(s) else 1
  }

  lemma FirstPiece(s: string, src: string, dst: string)
    requires s != "" && src != ""
    ensures var n := PieceLength(s);
            var run := TokenChar(s[0]);
            && CleanCut(s[..n], s[n..])
            && (run ==> AllToken(s[..n]))
            && MapRuns(s, src, dst) == (if run && s[..n] == src then dst else s[..n]) + MapRuns(s[n..], src, dst)
            && (OnlyTokensHit(s, src)
                <==> (run && s[..n] != src ==> !Hit(s[..n], src)) && OnlyTokensHit(s[n..], src))
            && (HasRun(s, src) <==> (run && s[..n] == src) || HasRun(s[n..], src))
            && (SparseRuns(s) <==> (run ==> Dots(s[..n]) <= 3) && SparseRuns(s[n..]))
  {
    hide *;
    PieceCut(s);
    PieceMaps(s, src, dst);
    PieceHits(s, src);
    PieceHas(s, src);
    PieceSparse(s);
  }

  lemma PieceCut(s: string)
    requires s != ""
    ensures var n := PieceLength(s); CleanCut(s[..n], s[n..]) && (TokenChar(s[0]) ==> AllToken(s[..n]))
  {
  }

  lemma PieceMaps(s: string, src: string, dst: string)
    requires s != "" && src != ""
    ensures MapRuns(s, src, dst)
         == (if TokenChar(s[0]) && s[..PieceLength(s)] == src then dst else s[..PieceLength(s)])
            + MapRuns(s[PieceLength(s)..], src, dst)
  {
    hide TokenChar, RunLength;
    if !TokenChar(s[0]) {
      assert s[..1] == [s[0]];
    }
  }

  lemma PieceHits(s: string, src: string)
    requires s != "" && src != ""
    ensures OnlyTokensHit(s, src)
       <==> (TokenChar(s[0]) && s[..PieceLength(s)] != src ==> !Hit(s[..PieceLength(s)], src))
            && OnlyTokensHit(s[PieceLength(s)..], src)
  {
    hide Hit, TokenChar, RunLength;
  }

  lemma PieceHas(s: string, src: string)
    requires s != "" && src != ""
    ensures var n := PieceLength(s);
            HasRun(s, src) <==> (TokenChar(s[0]) && s[..n] == src) || HasRun(s[n..], src)
  {
    hide TokenChar, RunLength;
  }

  lemma PieceSparse(s: string)
    requires s != ""
    ensures var n := PieceLength(s);
            SparseRuns(s) <==> (TokenChar(s[0]) ==> Dots(s[..n]) <= 3) && SparseRuns(s[n..])
  {
    hide TokenChar, RunLength, Dots;
  }

  /** A single character that is no token is not hit; the address itself is replaced. */
  lemma ScanOfPiece(piece: string, src: string, dst: string)
    requires DottedQuad(src) && src != dst && piece != "" && (TokenChar(piece[0]) || |piece| == 1)
    ensures piece == src ==> Scan(piece, src, dst) == dst
    ensures !TokenChar(piece[0]) ==> Scan(piece, src, dst) == piece
  {
    hide *;
    QuadShape(src);
    if piece == src {
      OccursFirst(src, "");
      assert src + "" == src && dst + "" == dst;
      FindIs(src, src, 0);
      ScanAtStart(src, "", dst);
      NothingMore(src, dst);
    }
    if !TokenChar(piece[0]) {
      forall j: nat ensures !OccursAt(piece, src, j) {
        if OccursAt(piece, src, j) {
          OccursChars(piece, src, j);
        }
      }
      FindNone(piece, src);
      ScanStep(piece, src, dst);
    }
  }

  lemma {:induction false} ScanVersusMap(s: string, src: string, dst: string)
    requires DottedQuad(src) && src != dst
    ensures EqualOrDrifts(Scan(s, src, dst), MapRuns(s, src, dst), src, dst, OnlyTokensHit(s, src))
    decreases |s|
  {
    hide *;
    QuadShape(src);
    if s == "" {
      NothingMore(src, dst);
      NothingMapped(src, dst);
      NoDrift("", src, dst);
    } else {
      var n := PieceLength(s);
      var piece, rest := s[..n], s[n..];
      FirstPiece(s, src, dst);
      assert s == piece + rest;
      ScanSplits(piece, rest, src, dst);
      PieceIsHead(s);
      ScanOfPiece(piece, src, dst);
      ScanHits(piece, src, dst);
      ScanVersusMap(rest, src, dst);
      var mapped := if TokenChar(s[0]) && piece == src then dst else piece;
      var ok := TokenChar(s[0]) && piece != src ==> !Hit(piece, src);
      NoDrift(Scan(piece, src, dst), src, dst);
      JoinDrifts(Scan(piece, src, dst), mapped, Scan(rest, src, dst), MapRuns(rest, src, dst), src, dst,
        ok, OnlyTokensHit(rest, src));
    }
  }

  lemma PieceIsHead(s: string)
    requires s != ""
    ensures var piece := s[..PieceLength(s)];
            piece != "" && piece[0] == s[0] && (TokenChar(s[0]) || |piece| == 1)
  {
    hide RunLength;
  }

  lemma NothingMapped(src: string, dst: string)
    requires src != ""
    ensures MapRuns("", src, dst) == "" && OnlyTokensHit("", src) && SparseRuns("") && !HasRun("", src)
  {
  }

  lemma {:induction false} MapToSelf(s: string, src: string)
    requires src != ""
    ensures MapRuns(s, src, src) == s
    decreases |s|
  {
    hide *;
    if s == "" {
      NothingMapped(src, src);
    } else {
      var n := PieceLength(s);
      FirstPiece(s, src, src);
      MapToSelf(s[n..], src);
      assert s == s[..n] + s[n..];
    }
  }

  /** Exactly the maximal runs equal to the address are replaced, on every text, iff the scan hits
      no other run of it. */
  lemma {:induction false} RewriteIsPerToken(text: string, src: string, dst: string)
    requires DottedQuad(src)
    ensures src != "" && (ReplaceIpToken(text, src, dst) == MapRuns(text, src, dst)
                          <==> src == dst || OnlyTokensHit(text, src))
  {
    hide *;
    QuadShape(src);
    ReplaceIsScan(text, src, dst);
    if src == dst {
      MapToSelf(text, src);
    } else {
      ScanVersusMap(text, src, dst);
      DriftIsDifference(Scan(text, src, dst), MapRuns(text, src, dst), src, dst, OnlyTokensHit(text, src));
    }
  }

  // ----- runs with at most three dots

  /** In a run with at most three dots, only digits stand around a dotted quad, and none follows. */
  lemma QuadInRun(run: string, src: string, i: nat)
    requires DottedQuad(src) && AllToken(run) && Dots(run) <= 3 && OccursAt(run, src, i)
    ensures i > 0 ==> IsDigit(run[i - 1])
    ensures i + |src| < |run| ==> IsDigit(run[i + |src|])
    ensures Dots(run[i + |src|..]) == 0
  {
    hide Dots, OccursAt, AllToken;
    DotsAround(run, src, i);
    QuadShape(src);
    if i > 0 {
      NoDots(run[..i], i - 1);
      AllTokenAt(run, i - 1);
    }
    if i + |src| < |run| {
      NoDots(run[i + |src|..], 0);
      AllTokenAt(run, i + |src|);
    }
  }

  lemma AllTokenAt(s: string, i: nat)
    requires AllToken(s) && i < |s|
    ensures TokenChar(s[i])
  {
  }

  lemma DotsAround(s: string, src: string, i: nat)
    requires OccursAt(s, src, i)
    ensures i + |src| <= |s| && Dots(s) == Dots(s[..i]) + Dots(src) + Dots(s[i + |src|..])
  {
    hide Dots;
    var before, after := s[..i], s[i + |src|..];
    assert s == before + src + after;
    DotsAppend(before + src, after);
    DotsAppend(before, src);
  }

  lemma NoQuadWithoutDots(s: string, src: string)
    requires DottedQuad(src) && Dots(s) == 0
    ensures !Hit(s, src)
  {
    hide *;
    QuadShape(src);
    HitStep(s, src);
    if Find(s, src).Some? {
      DotsAround(s, src, Find(s, src).value);
    }
  }

  lemma SparseRunIsToken(run: string, src: string)
    requires DottedQuad(src) && AllToken(run) && Dots(run) <= 3
    ensures src != "" && (Hit(run, src) ==> run == src)
  {
    hide *;
    QuadShape(src);
    HitStep(run, src);
    if Find(run, src).Some? {
      var i := Find(run, src).value;
      QuadInRun(run, src, i);
      NoQuadWithoutDots(run[i + |src|..], src);
      WholeIfBounded(run, src, i);
    }
  }

  lemma WholeIfBounded(run: string, src: string, i: nat)
    requires i + |src| <= |run| && OccursAt(run, src, i)
    requires i > 0 ==> IsDigit(run[i - 1])
    requires i + |src| < |run| ==> IsDigit(run[i + |src|])
    ensures Bounded(run, i, i + |src|) ==> run == src
  {
    assert i == 0 && |src| == |run| ==> run[i..i + |src|] == run;
  }

  /** In particular whenever no run has more than three dots. */
  lemma {:induction false} SparseIsPerToken(s: string, src: string)
    requires DottedQuad(src) && SparseRuns(s)
    ensures src != "" && OnlyTokensHit(s, src)
    decreases |s|
  {
    hide *;
    QuadShape(src);
    if s == "" {
      NothingMapped(src, src);
    } else {
      FirstPiece(s, src, src);
      if TokenChar(s[0]) {
        SparseRunIsToken(s[..PieceLength(s)], src);
      }
      SparseIsPerToken(s[PieceLength(s)..], src);
    }
  }

  // ----- there and back

  lemma {:induction false} MapRunsStart(s: string, src: string, dst: string)
    requires src != "" && (s == "" || !TokenChar(s[0]))
    ensures var m := MapRuns(s, src, dst); m == "" || !TokenChar(m[0])
  {
  }

  /** Mapping a to b and then b to a maps b to a. */
  lemma {:induction false} MapAndBack(s: string, a: string, b: string)
    requires DottedQuad(a) && DottedQuad(b)
    ensures MapRuns(MapRuns(s, a, b), b, a) == MapRuns(s, b, a)
    ensures SparseRuns(s) ==> SparseRuns(MapRuns(s, a, b))
    decreases |s|
  {
    hide *;
    QuadShape(a);
    QuadShape(b);
    if s == "" {
      NothingMapped(a, b);
      NothingMapped(b, a);
    } else {
      var n := PieceLength(s);
      FirstPiece(s, a, b);
      FirstPiece(s, b, a);
      PieceIsHead(s);
      MapAndBack(s[n..], a, b);
      if TokenChar(s[0]) {
        AfterRun(s);
        MapRunsStart(s[n..], a, b);
        RunAndBack(if s[..n] == a then b else s[..n], MapRuns(s[n..], a, b), a, b);
      } else {
        assert s[..n] == [s[0]];
        CharAndBack(s[0], MapRuns(s[n..], a, b), a, b);
      }
    }
  }

  lemma AfterRun(s: string)
    requires s != "" && TokenChar(s[0])
    ensures var rest := s[PieceLength(s)..]; rest == "" || !TokenChar(rest[0])
  {
  }

  lemma CharAndBack(c: char, back: string, a: string, b: string)
    requires !TokenChar(c)
    ensures MapRuns([c] + back, b, a) == [c] + MapRuns(back, b, a) && (SparseRuns([c] + back) <==> SparseRuns(back))
  {
    hide Dots;
    assert ([c] + back)[1..] == back;
  }

  /** A run that was put in front of a mapped text is found again. */
  lemma RunAndBack(put: string, back: string, a: string, b: string)
    requires AllToken(put) && put != "" && a != "" && b != "" && (back == "" || !TokenChar(back[0]))
    ensures MapRuns(put + back, b, a) == (if put == b then a else put) + MapRuns(back, b, a)
    ensures SparseRuns(put + back) <==> Dots(put) <= 3 && SparseRuns(back)
  {
    hide MapRuns, Dots;
    MapRunsOfRun(put, back, b, a);
    RunLengthIs(put, back);
    assert (put + back)[..|put|] == put && (put + back)[|put|..] == back;
  }

  /** Mapping an address to another one changes exactly the texts that have it. */
  lemma {:induction false} MapChanges(s: string, src: string, dst: string)
    requires src != "" && src != dst
    ensures EqualOrDrifts(MapRuns(s, src, dst), s, src, dst, !HasRun(s, src))
    decreases |s|
  {
    hide *;
    if s == "" {
      NothingMapped(src, dst);
      NoDrift("", src, dst);
    } else {
      var n := PieceLength(s);
      FirstPiece(s, src, dst);
      MapChanges(s[n..], src, dst);
      var hit := TokenChar(s[0]) && s[..n] == src;
      PutDrifts(s[..n], src, dst, hit);
      JoinDrifts(if hit then dst else s[..n], s[..n], MapRuns(s[n..], src, dst), s[n..], src, dst,
        !hit, !HasRun(s[n..], src));
      assert s == s[..n] + s[n..];
    }
  }

  lemma PutDrifts(piece: string, src: string, dst: string, hit: bool)
    requires src != dst && (hit ==> piece == src)
    ensures EqualOrDrifts(if hit then dst else piece, piece, src, dst, !hit)
  {
  }

  /** Moving a node from address a to b and back restores a file iff b was not in it. */
  lemma {:induction false} RewriteAndBack(text: string, a: string, b: string)
    requires DottedQuad(a) && DottedQuad(b) && SparseRuns(text)
    ensures ReplaceIpToken(ReplaceIpToken(text, a, b), b, a) == text <==> a == b || !HasRun(text, b)
  {
    hide *;
    QuadShape(a);
    QuadShape(b);
    ReplaceIsScan(text, a, b);
    ReplaceIsScan(text, b, a);
    MapAndBack(text, a, b);
    SparseIsPerToken(text, a);
    SparseIsPerToken(MapRuns(text, a, b), b);
    RewriteIsPerToken(text, a, b);
    RewriteIsPerToken(MapRuns(text, a, b), b, a);
    if a != b {
      MapChanges(text, b, a);
      DriftIsDifference(MapRuns(text, b, a), text, b, a, !HasRun(text, b));
    }
  }

  /** Every address fails on some text: written twice in a row it is one run and no token, yet the
      scan replaces the second copy, having forgotten the digit before it. */
  lemma {:induction false} CrowdedRunIsRewritten(src: string, dst: string)
    requires DottedQuad(src) && src != dst
    ensures ReplaceIpToken(src + src, src, dst) == src + dst
    ensures MapRuns(src + src, src, dst) == src + src != src + dst
  {
    hide *;
    QuadShape(src);
    TwiceIsRun(src);
    OccursFirst(src, src);
    FindIs(src + src, src, 0);
    ScanAtStart(src, src, dst);
    ScanOfPiece(src, src, dst);
    ReplaceIsScan(src + src, src, dst);
    MapRunsOfRun(src + src, "", src, dst);
    NothingMapped(src, dst);
    assert src + src + "" == src + src;
  }

  lemma TwiceIsRun(src: string)
    requires DottedQuad(src)
    ensures AllToken(src + src)
  {
  }

  lemma OccursFirst(src: string, rest: string)
    ensures OccursAt(src + rest, src, 0)
  {
  }

  /** One round at an occurrence that starts the text: kept before a digit, replaced otherwise. */
  lemma ScanAtStart(src: string, rest: string, dst: string)
    requires src != "" && Find(src + rest, src) == Some(0)
    ensures Scan(src + rest, src, dst)
         == (if rest != "" && IsDigit(rest[0]) then src else dst) + Scan(rest, src, dst)
  {
    hide Scan, Find, IsDigit;
    ScanStep(src + rest, src, dst);
    assert (src + rest)[0 + |src|..] == rest;
    assert rest != "" ==> (src + rest)[|src|] == rest[0];
    assert (src + rest)[..0] == "";
    var put := if Bounded(src + rest, 0, |src|) then dst else src;
    assert "" + put == put;
  }

  lemma NothingMore(src: string, dst: string)
    requires src != ""
    ensures Scan("", src, dst) == ""
  {
  }
}
