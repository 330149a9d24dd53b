/** The line editor of `crates/pertisk-config/src/lib.rs` that drops earlier duplicates of a
    block-style YAML key, with their nested blocks, so that the last one wins. */
module YamlRepair {
  import opened Text

  /** What indentation comparisons see of a line: blank lines and comments are skipped. */
  datatype Kind = Noise | Content(indent: nat)

  predicate IsNoise(line: string) {
    var t := TrimStart(line);
    t == "" || t[0] == '#'
  }

  function KindOf(line: string): Kind {
    if IsNoise(line) then Noise else Content(Indent(line))
  }

  function Kinds(lines: seq<string>): (ks: seq<Kind>)
    ensures |ks| == |lines|
    ensures forall i :: 0 <= i < |ks| ==> ks[i] == KindOf(lines[i])
  {
    seq(|lines|, i requires 0 <= i < |lines| => KindOf(lines[i]))
  }

  predicate IsKeyLine(line: string, key: string) {
    var t := TrimStart(line);
    t == key + ":" || key + ": " <= t
  }

  // ----- the block under a key

  function SkipNoise(ks: seq<Kind>, j: nat): (r: nat)
    requires j <= |ks|
    ensures j <= r <= |ks|
    ensures forall m :: j <= m < r ==> ks[m].Noise?
    ensures r < |ks| ==> ks[r].Content?
    decreases |ks| - j
  {
    if j < |ks| && ks[j].Noise? then SkipNoise(ks, j + 1) else j
  }

  predicate Deeper(k: Kind, keyIndent: nat) { k.Content? && k.indent > keyIndent }

  function BlockEndFrom(ks: seq<Kind>, end: nat, keyIndent: nat): (r: nat)
    requires end <= |ks|
    ensures end <= r <= |ks|
    decreases |ks| - end
  {
    if end == |ks| then end
    else if ks[end].Noise? then
      var j := SkipNoise(ks, end + 1);
      if j < |ks| && Deeper(ks[j], keyIndent) then BlockEndFrom(ks, j, keyIndent) else end
    else if Deeper(ks[end], keyIndent) then BlockEndFrom(ks, end + 1, keyIndent)
    else end
  }

  function BlockEnd(ks: seq<Kind>, start: nat, keyIndent: nat): (r: nat)
    requires start < |ks|
    ensures start < r <= |ks|
  {
    BlockEndFrom(ks, start + 1, keyIndent)
  }

  /** What a block is: everything in it is noise or deeper than its key, it does not end in
      noise, and the next line after it that is not noise is not deeper. */
  ghost predicate IsBlock(ks: seq<Kind>, start: nat, keyIndent: nat, end: nat) {
    && start < end <= |ks|
    && (forall i :: start < i < end ==> ks[i].Noise? || Deeper(ks[i], keyIndent))
    && (end == start + 1 || ks[end - 1].Content?)
    && (var next := SkipNoise(ks, end); next == |ks| || !Deeper(ks[next], keyIndent))
  }

  lemma {:induction false} BlockEndFromIsBlock(ks: seq<Kind>, start: nat, end: nat, keyIndent: nat)
    requires start < end <= |ks|
    requires forall i :: start < i < end ==> ks[i].Noise? || Deeper(ks[i], keyIndent)
    requires end == start + 1 || ks[end - 1].Content? || (end < |ks| && Deeper(ks[end], keyIndent))
    ensures IsBlock(ks, start, keyIndent, BlockEndFrom(ks, end, keyIndent))
    decreases |ks| - end
  {
    if end < |ks| {
      if ks[end].Noise? {
        var j := SkipNoise(ks, end + 1);
        if j < |ks| && Deeper(ks[j], keyIndent) {
          BlockEndFromIsBlock(ks, start, j, keyIndent);
        }
      } else if Deeper(ks[end], keyIndent) {
        BlockEndFromIsBlock(ks, start, end + 1, keyIndent);
      }
    }
  }

  /** A block cannot be a proper part of another one that starts at the same line. */
  lemma BlocksDoNotNest(ks: seq<Kind>, start: nat, keyIndent: nat, lo: nat, hi: nat)
    requires IsBlock(ks, start, keyIndent, lo) && IsBlock(ks, start, keyIndent, hi)
    ensures hi <= lo
  {
  }

  /** `key_block_end` computes the block, and there is only one. */
  lemma BlockEndIsTheBlock(ks: seq<Kind>, start: nat, keyIndent: nat, end: nat)
    requires start < |ks|
    ensures IsBlock(ks, start, keyIndent, end) <==> end == BlockEnd(ks, start, keyIndent)
  {
    var r := BlockEnd(ks, start, keyIndent);
    BlockEndFromIsBlock(ks, start, start + 1, keyIndent);
    if IsBlock(ks, start, keyIndent, end) {
      BlocksDoNotNest(ks, start, keyIndent, r, end);
      BlocksDoNotNest(ks, start, keyIndent, end, r);
    }
  }

  method KeyBlockEnd(lines: seq<string>, start: nat, keyIndent: nat) returns (end: nat)
    requires start < |lines|
    ensures end == BlockEnd(Kinds(lines), start, keyIndent)
  {
    ghost var ks := Kinds(lines);
    end := start + 1;
    while end < |lines|
      invariant start < end <= |lines|
      invariant BlockEndFrom(ks, end, keyIndent) == BlockEnd(ks, start, keyIndent)
    {
      var line := lines[end];
      assert ks[end] == KindOf(line);
      if IsNoise(line) {
        var j := end + 1;
        while j < |lines| && IsNoise(lines[j])
          invariant end < j <= |lines|
          invariant SkipNoise(ks, j) == SkipNoise(ks, end + 1)
        {
          j := j + 1;
        }
        if j < |lines| && Indent(lines[j]) > keyIndent {
          end := j;
          continue;
        }
        break;
      }
      if Indent(line) > keyIndent {
        end := end + 1;
        continue;
      }
      break;
    }
  }

  // ----- which lines are duplicates

  /** No line between `a` and `b` (both included) leaves the mapping at `keyIndent`. */
  ghost predicate SameParent(ks: seq<Kind>, a: nat, b: nat, keyIndent: nat) {
    forall i :: (a <= i <= b || b <= i <= a) && i < |ks| && ks[i].Content? ==> ks[i].indent >= keyIndent
  }

  method SameMappingParent(lines: seq<string>, a: nat, b: nat, keyIndent: nat) returns (same: bool)
    requires a < |lines| && b < |lines|
    ensures same <==> SameParent(Kinds(lines), a, b, keyIndent)
  {
    ghost var ks := Kinds(lines);
    var lo, hi := if a <= b then a else b, if a <= b then b else a;
    var i := lo;
    while i <= hi
      invariant lo <= i <= hi + 1
      invariant forall m :: lo <= m < i && ks[m].Content? ==> ks[m].indent >= keyIndent
    {
      assert ks[i] == KindOf(lines[i]);
      if !IsNoise(lines[i]) && Indent(lines[i]) < keyIndent {
        return false;
      }
      i := i + 1;
    }
    return true;
  }

  function Distance(a: nat, b: nat): nat { if a <= b then b - a else a - b }

  /** The key line nearest to the hint; the earlier one of two that are equally near. */
  function NearestKeyLine(lines: seq<string>, key: string, hint: nat, n: nat): (r: Option<nat>)
    requires n <= |lines|
    ensures r.Some? ==> r.value < n
  {
    if n == 0 then None
    else
      var best := NearestKeyLine(lines, key, hint, n - 1);
      if IsKeyLine(lines[n - 1], key) && (best.None? || Distance(n - 1, hint) < Distance(best.value, hint))
      then Some(n - 1)
      else best
  }

  lemma {:induction false} NearestIsNearest(lines: seq<string>, key: string, hint: nat, n: nat)
    requires n <= |lines|
    ensures var r := NearestKeyLine(lines, key, hint, n);
            && (r.None? ==> forall i :: 0 <= i < n ==> !IsKeyLine(lines[i], key))
            && (r.Some? ==>
                  IsKeyLine(lines[r.value], key)
                  && forall i :: 0 <= i < n && IsKeyLine(lines[i], key) ==>
                       Distance(r.value, hint) < Distance(i, hint)
                       || (Distance(r.value, hint) == Distance(i, hint) && r.value <= i))
  {
    hide IsKeyLine;
    if n > 0 {
      NearestIsNearest(lines, key, hint, n - 1);
    }
  }

  predicate IsKeyAt(line: string, key: string, indent: nat) {
    Indent(line) == indent && IsKeyLine(line, key)
  }

  /** The positions from `from` on that hold the key in the mapping of the hint, in order. */
  ghost function Occurrences(lines: seq<string>, key: string, hint: nat, indent: nat, from: nat): (r: seq<nat>)
    requires from <= |lines|
    ensures forall i :: 0 <= i < |r| ==> from <= r[i] < |lines|
    decreases |lines| - from
  {
    if from == |lines| then []
    else (if IsKeyAt(lines[from], key, indent) && SameParent(Kinds(lines), from, hint, indent) then [from] else [])
         + Occurrences(lines, key, hint, indent, from + 1)
  }

  ghost predicate Increasing(s: seq<nat>) {
    forall i, j :: 0 <= i < j < |s| ==> s[i] < s[j]
  }

  lemma {:induction false} OccurrencesIncrease(lines: seq<string>, key: string, hint: nat, indent: nat, from: nat)
    requires from <= |lines|
    ensures Increasing(Occurrences(lines, key, hint, indent, from))
    decreases |lines| - from
  {
    if from < |lines| {
      OccurrencesIncrease(lines, key, hint, indent, from + 1);
    }
  }

  // ----- removing the earlier ones

  datatype Range = Range(start: nat, end: nat)

  /** The blocks of all occurrences but the last. */
  function DropRanges(ks: seq<Kind>, occ: seq<nat>, indent: nat): (r: seq<Range>)
    requires forall i :: 0 <= i < |occ| ==> occ[i] < |ks|
    ensures |r| == if occ == [] then 0 else |occ| - 1
    ensures forall i :: 0 <= i < |r| ==> r[i] == Range(occ[i], BlockEnd(ks, occ[i], indent))
  {
    if |occ| <= 1 then []
    else [Range(occ[0], BlockEnd(ks, occ[0], indent))] + DropRanges(ks, occ[1..], indent)
  }

  /** Copy from line `i` on, jumping over a range when its first line is reached. */
  function Splice(lines: seq<string>, ranges: seq<Range>, i: nat): seq<string>
    requires i <= |lines|
    requires forall r :: r in ranges ==> r.start < r.end <= |lines|
    decreases |lines| - i
  {
    if i == |lines| then []
    else if ranges != [] && i == ranges[0].start then Splice(lines, ranges[1..], ranges[0].end)
    else [lines[i]] + Splice(lines, ranges, i + 1)
  }

  /** The edit on the lines; `hint` is a 0-based index. */
  ghost function Remove(lines: seq<string>, key: string, hint: nat): Option<seq<string>> {
    match NearestKeyLine(lines, key, hint, |lines|)
    case None => None
    case Some(near) =>
      var indent := Indent(lines[near]);
      var occ := Occurrences(lines, key, hint, indent, 0);
      if |occ| < 2 then None
      else Some(Splice(lines, DropRanges(Kinds(lines), occ, indent), 0))
  }

  function Join(lines: seq<string>): string {
    if lines == [] then ""
    else if |lines| == 1 then lines[0]
    else lines[0] + [LF] + Join(lines[1..])
  }

  function HintIndex(hintLine: nat, n: nat): nat
    requires n > 0
  {
    var h := if hintLine == 0 then 0 else hintLine - 1;
    if h < n then h else n - 1
  }

  /** The edit on the text; `hintLine` is 1-based. */
  ghost function RemoveText(yaml: string, key: string, hintLine: nat): Option<string> {
    var lines := Lines(yaml);
    if lines == [] then None
    else
      match Remove(lines, key, HintIndex(hintLine, |lines|))
      case None => None
      case Some(out) => Some(Join(out) + if EndsWith(yaml, [LF]) then [LF] else "")
  }

  method CollectOccurrences(lines: seq<string>, key: string, hint: nat, indent: nat) returns (occ: seq<nat>)
    requires hint < |lines|
    ensures occ == Occurrences(lines, key, hint, indent, 0)
  {
    hide *;
    occ := [];
    ghost var all := Occurrences(lines, key, hint, indent, 0);
    assert [] + all == all;
    for k := 0 to |lines|
      invariant occ + Occurrences(lines, key, hint, indent, k) == all
    {
      OccurrencesStep(lines, key, hint, indent, k);
      var same := SameMappingParent(lines, k, hint, indent);
      if IsKeyAt(lines[k], key, indent) && same {
        assert occ + ([k] + Occurrences(lines, key, hint, indent, k + 1))
            == (occ + [k]) + Occurrences(lines, key, hint, indent, k + 1);
        occ := occ + [k];
      }
    }
    OccurrencesEnd(lines, key, hint, indent);
  }

  lemma OccurrencesStep(lines: seq<string>, key: string, hint: nat, indent: nat, k: nat)
    requires k < |lines|
    ensures var rest := Occurrences(lines, key, hint, indent, k + 1);
            var hit := IsKeyAt(lines[k], key, indent) && SameParent(Kinds(lines), k, hint, indent);
            Occurrences(lines, key, hint, indent, k) == if hit then [k] + rest else rest
  {
    hide IsKeyAt, SameParent, Kinds;
    var rest := Occurrences(lines, key, hint, indent, k + 1);
    assert [] + rest == rest;
  }

  lemma OccurrencesEnd(lines: seq<string>, key: string, hint: nat, indent: nat)
    ensures Occurrences(lines, key, hint, indent, |lines|) == []
  {
  }

  method CollectDropRanges(lines: seq<string>, occ: seq<nat>, indent: nat) returns (ranges: seq<Range>)
    requires occ != [] && Increasing(occ) && forall i :: 0 <= i < |occ| ==> occ[i] < |lines|
    ensures ranges == DropRanges(Kinds(lines), occ, indent)
  {
    var keep := occ[|occ| - 1];
    ranges := [];
    for k := 0 to |occ|
      invariant |ranges| == if k < |occ| then k else |occ| - 1
      invariant forall i :: 0 <= i < |ranges| ==> ranges[i] == Range(occ[i], BlockEnd(Kinds(lines), occ[i], indent))
    {
      if occ[k] == keep {
        continue;
      }
      var end := KeyBlockEnd(lines, occ[k], indent);
      ranges := ranges + [Range(occ[k], end)];
    }
  }

  method CopyOutside(lines: seq<string>, ranges: seq<Range>) returns (out: seq<string>)
    requires forall r :: r in ranges ==> r.start < r.end <= |lines|
    ensures out == Splice(lines, ranges, 0)
  {
    out := [];
    var i, ri := 0, 0;
    while i < |lines|
      invariant i <= |lines| && ri <= |ranges|
      invariant out + Splice(lines, ranges[ri..], i) == Splice(lines, ranges, 0)
      decreases |lines| - i
    {
      if ri < |ranges| && i == ranges[ri].start {
        assert ranges[ri..][1..] == ranges[ri + 1..];
        i := ranges[ri].end;
        ri := ri + 1;
        continue;
      }
      assert out + Splice(lines, ranges[ri..], i) == (out + [lines[i]]) + Splice(lines, ranges[ri..], i + 1);
      out := out + [lines[i]];
      i := i + 1;
    }
  }

  method RemoveLines(lines: seq<string>, key: string, hint: nat) returns (r: Option<seq<string>>)
    requires hint < |lines|
    ensures r == Remove(lines, key, hint)
  {
    var near := NearestKeyLine(lines, key, hint, |lines|);
    if near.None? {
      return None;
    }
    var indent := Indent(lines[near.value]);
    var occ := CollectOccurrences(lines, key, hint, indent);
    if |occ| < 2 {
      return None;
    }
    OccurrencesIncrease(lines, key, hint, indent, 0);
    var ranges := CollectDropRanges(lines, occ, indent);
    var out := CopyOutside(lines, ranges);
    return Some(out);
  }

  /** `remove_earlier_key_occurrence`. The collected ranges are already in order, so sorting
      them changes nothing. */
  method RemoveEarlierKeyOccurrence(yaml: string, key: string, hintLine: nat) returns (r: Option<string>)
    ensures r == RemoveText(yaml, key, hintLine)
  {
    var lines := Lines(yaml);
    if lines == [] {
      return None;
    }
    var out := RemoveLines(lines, key, HintIndex(hintLine, |lines|));
    if out.None? {
      return None;
    }
    var s := Join(out.value) + if EndsWith(yaml, [LF]) then [LF] else "";
    return Some(s);
  }
}
