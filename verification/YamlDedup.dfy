/** The repair loop around the line editor: it always makes progress, and on printed trees it
    computes, text for text, the tree in which every mapping keeps the last entry of each key. */
module YamlDedup {
  import opened Text
  import opened YamlRepair
  import opened YamlTree

  // ----- one edit makes the document shorter

  /** `a` is `b` with lines left out. */
  ghost predicate Subsequence(a: seq<string>, b: seq<string>) {
    a == [] || (b != [] && ((a[0] == b[0] && Subsequence(a[1..], b[1..])) || Subsequence(a, b[1..])))
  }

  lemma {:induction false} SpliceShrinks(lines: seq<string>, ranges: seq<Range>, i: nat)
    requires i <= |lines| && RangesOk(lines, ranges)
    ensures Subsequence(Splice(lines, ranges, i), lines[i..])
    ensures |Splice(lines, ranges, i)| <= |lines| - i
    ensures ranges != [] && i <= ranges[0].start ==> |Splice(lines, ranges, i)| < |lines| - i
    decreases |lines| - i
  {
    if i < |lines| {
      if ranges != [] && i == ranges[0].start {
        SpliceShrinks(lines, ranges[1..], ranges[0].end);
        SubsequenceOfLonger(Splice(lines, ranges[1..], ranges[0].end), lines, i, ranges[0].end);
      } else {
        SpliceShrinks(lines, ranges, i + 1);
        assert lines[i..][1..] == lines[i + 1..];
      }
    }
  }

  lemma {:induction false} SubsequenceOfLonger(a: seq<string>, b: seq<string>, i: nat, j: nat)
    requires i <= j <= |b| && Subsequence(a, b[j..])
    ensures Subsequence(a, b[i..])
    decreases j - i
  {
    if i < j {
      SubsequenceOfLonger(a, b, i + 1, j);
      assert b[i..][1..] == b[i + 1..];
    }
  }

  /** Every successful edit, of any document and for any key, only leaves lines out, and at
      least one. */
  lemma {:induction false} RemoveShrinks(lines: seq<string>, key: string, hint: nat)
    requires Remove(lines, key, hint).Some?
    ensures var out := Remove(lines, key, hint).value; Subsequence(out, lines) && |out| < |lines| && |lines| >= 2
  {
    var indent := Indent(lines[NearestKeyLine(lines, key, hint, |lines|).value]);
    var occ := Occurrences(lines, key, hint, indent, 0);
    OccurrencesIncrease(lines, key, hint, indent, 0);
    assert occ[0] < occ[1] < |lines|;
    DropRangesOk(lines, occ, indent);
    SpliceShrinks(lines, DropRanges(Kinds(lines), occ, indent), 0);
    assert lines[0..] == lines;
  }

  /** The block of a key that is not a comment ends at or before any later line that is neither
      noise nor deeper; so the dropped ranges are disjoint and leave the last occurrence alone. */
  lemma DroppedBlocksAreDisjoint(lines: seq<string>, key: string, hint: nat, indent: nat, i: nat, j: nat)
    requires key == "" || key[0] != '#'
    requires var occ := Occurrences(lines, key, hint, indent, 0); i < j < |occ|
    ensures var occ := Occurrences(lines, key, hint, indent, 0);
            BlockEnd(Kinds(lines), occ[i], indent) <= occ[j]
  {
    hide IsKeyLine, KindOf, Occurrences;
    var occ := Occurrences(lines, key, hint, indent, 0);
    OccurrencesIncrease(lines, key, hint, indent, 0);
    OccurrencesAreKeyLines(lines, key, hint, indent, 0, j);
    KeyLineHasItsIndent(lines[occ[j]], key, indent);
    BlockEndIsTheBlock(Kinds(lines), occ[i], indent, BlockEnd(Kinds(lines), occ[i], indent));
    assert Kinds(lines)[occ[j]] == Content(indent);
  }

  lemma {:induction false} OccurrencesAreKeyLines(lines: seq<string>, key: string, hint: nat, indent: nat,
                                                  from: nat, j: nat)
    requires from <= |lines| && j < |Occurrences(lines, key, hint, indent, from)|
    ensures IsKeyAt(lines[Occurrences(lines, key, hint, indent, from)[j]], key, indent)
    decreases |lines| - from
  {
    hide *;
    OccurrencesEnd(lines, key, hint, indent);
    OccurrencesStep(lines, key, hint, indent, from);
    var hit := IsKeyAt(lines[from], key, indent) && SameParent(Kinds(lines), from, hint, indent);
    if !hit {
      OccurrencesAreKeyLines(lines, key, hint, indent, from + 1, j);
    } else if j > 0 {
      OccurrencesAreKeyLines(lines, key, hint, indent, from + 1, j - 1);
    }
  }

  lemma KeyLineHasItsIndent(line: string, key: string, indent: nat)
    requires key == "" || key[0] != '#'
    requires IsKeyAt(line, key, indent)
    ensures KindOf(line) == Content(indent)
  {
    var t := TrimStart(line);
    assert t[0] == (key + ":")[0];
  }

  /** Every line of a dropped block is its key line, or noise, or deeper than the key. */
  lemma DroppedLinesAreNested(lines: seq<string>, start: nat, indent: nat, i: nat)
    requires start < |lines| && start < i < BlockEnd(Kinds(lines), start, indent)
    ensures Under(lines[i], indent)
  {
    BlockEndIsTheBlock(Kinds(lines), start, indent, BlockEnd(Kinds(lines), start, indent));
    assert Kinds(lines)[i] == KindOf(lines[i]);
  }

  /** The premise on the key is needed, for every such key: with a key that looks like a comment
      the last occurrence itself is swallowed, here with the whole document. */
  lemma CommentKeysLoseTheLast(key: string)
    requires key != "" && key[0] == '#'
    ensures Remove([key + ": 1", key + ": 2", "  x"], key, 0) == Some([])
  {
    hide IsKeyLine, KindOf, Occurrences, Remove, Cut, BlockEnd, Indent;
    var a, b, c := key + ": 1", key + ": 2", "  x";
    var lines := [a, b, c];
    CommentKeyLine(key, a, "1");
    CommentKeyLine(key, b, "2");
    IndentedX();
    OccurrencesOfThree(lines, key);
    RemoveIsCut(lines, key, 0, 0, [0, 1]);
    CutDrop(lines, [0, 1], 0);
    SwallowsThree(Kinds(lines));
    CutAtEnd(lines, [1]);
  }

  lemma IndentedX()
    ensures Indent("  x") == 2 && KindOf("  x") == Content(2)
  {
    hide *;
    assert "  x" == Blanks(2) + "x" by { TwoBlanks(); }
    TwoBlanks();
    IndentOfPadded(2, "x");
    TrimLeftPadded(Blanks(2), "x", WHITESPACE);
    ContentIfStarts("  x", "x");
  }

  lemma TwoBlanks()
    ensures "  x" == Blanks(2) + "x" && 'x' !in WHITESPACE && forall c :: c in Blanks(2) ==> c in WHITESPACE
  {
  }

  lemma ContentIfStarts(line: string, rest: string)
    requires TrimLeft(line, WHITESPACE) == rest && rest != "" && rest[0] != '#'
    ensures KindOf(line) == Content(Indent(line))
  {
    hide TrimLeft, Indent, WHITESPACE;
  }

  lemma SwallowsThree(ks: seq<Kind>)
    requires |ks| == 3 && ks[1].Noise? && ks[2] == Content(2)
    ensures BlockEnd(ks, 0, 0) == 3
  {
    assert SkipNoise(ks, 2) == 2;
    assert BlockEndFrom(ks, 3, 0) == 3;
    assert BlockEndFrom(ks, 2, 0) == 3;
  }

  lemma CutAtEnd(lines: seq<string>, occ: seq<nat>)
    requires forall i :: 0 <= i < |occ| ==> occ[i] < |lines|
    ensures Cut(lines, occ, 0, |lines|) == []
  {
  }

  lemma CommentKeyLine(key: string, line: string, value: string)
    requires key != "" && key[0] == '#' && line == key + ": " + value
    ensures IsKeyAt(line, key, 0) && KindOf(line).Noise?
  {
    assert line[0] == '#';
    assert TrimStart(line) == line;
  }

  lemma OccurrencesOfThree(lines: seq<string>, key: string)
    requires |lines| == 3 && IsKeyAt(lines[0], key, 0) && IsKeyAt(lines[1], key, 0) && !IsKeyAt(lines[2], key, 0)
    ensures Occurrences(lines, key, 0, 0, 0) == [0, 1]
  {
    hide *;
    OccurrencesEnd(lines, key, 0, 0);
    TopOccurrence(lines, key, 2);
    TopOccurrence(lines, key, 1);
    TopOccurrence(lines, key, 0);
  }

  lemma TopOccurrence(lines: seq<string>, key: string, k: nat)
    requires k < |lines|
    ensures var rest := Occurrences(lines, key, 0, 0, k + 1);
            Occurrences(lines, key, 0, 0, k) == if IsKeyAt(lines[k], key, 0) then [k] + rest else rest
  {
    hide *;
    NothingLeavesTheTop(Kinds(lines), k, 0);
    OccurrencesStep(lines, key, 0, 0, k);
  }

  lemma NothingLeavesTheTop(ks: seq<Kind>, a: nat, b: nat)
    ensures SameParent(ks, a, b, 0)
  {
  }

  // ----- the loop

  /** What the YAML parser says of a text: it parses, or it names a duplicate key with a line
      number, or it fails in some other way. */
  datatype Outcome = Parsed | Duplicate(key: string, line: nat) | OtherError

  /** `dedup_block_yaml_keys` with `rounds` iterations left. */
  ghost function Dedup(parse: string -> Outcome, text: string, rounds: nat): string
    decreases rounds
  {
    if rounds == 0 then text
    else
      match parse(text)
      case Duplicate(key, line) =>
        (match RemoveText(text, key, line)
         case None => text
         case Some(next) => if next == text then text else Dedup(parse, next, rounds - 1))
      case _ => text
  }

  lemma {:induction false} SplitJoin(lines: seq<string>)
    requires lines != [] && forall i :: 0 <= i < |lines| ==> LF !in lines[i]
    ensures Split(Join(lines)) == Pieces(lines[..|lines| - 1], lines[|lines| - 1])
    ensures Split(Join(lines) + [LF]) == Pieces(lines, "")
  {
    hide Split;
    if |lines| == 1 {
      SplitNoLf(lines[0]);
      SplitNoLf("");
      SplitAtLf(lines[0], "");
      assert lines[0] + [LF] + "" == lines[0] + [LF];
      assert lines == [lines[0]];
    } else {
      var rest := lines[1..];
      SplitJoin(rest);
      SplitAtLf(lines[0], Join(rest));
      SplitAtLf(lines[0], Join(rest) + [LF]);
      assert Join(lines) + [LF] == lines[0] + [LF] + (Join(rest) + [LF]);
      assert lines == [lines[0]] + rest;
      assert lines[..|lines| - 1] == [lines[0]] + rest[..|rest| - 1];
    }
  }

  lemma {:induction false} SubsequenceMembers(a: seq<string>, b: seq<string>, l: string)
    requires Subsequence(a, b) && l in a
    ensures l in b
    decreases |b|
  {
    if a[0] == b[0] && Subsequence(a[1..], b[1..]) {
      if l != a[0] {
        SubsequenceMembers(a[1..], b[1..], l);
      }
    } else {
      SubsequenceMembers(a, b[1..], l);
    }
  }

  lemma JoinedLines(out: seq<string>)
    requires forall i :: 0 <= i < |out| ==> LF !in out[i]
    ensures var n := if out == [] then 1 else |out|;
            |Lines(Join(out))| <= n && |Lines(Join(out) + [LF])| <= n
  {
    hide Split;
    if out == [] {
      SplitNoLf("");
      SplitJoin([""]);
    } else {
      SplitJoin(out);
    }
  }

  /** The measure of the loop: every successful edit lowers the number of lines of the text. */
  lemma {:induction false} RemoveTextShrinks(text: string, key: string, line: nat)
    requires RemoveText(text, key, line).Some?
    ensures |Lines(RemoveText(text, key, line).value)| < |Lines(text)|
  {
    hide Remove, Subsequence, Lines, Join;
    var lines := Lines(text);
    var hint := HintIndex(line, |lines|);
    RemoveShrinks(lines, key, hint);
    var out := Remove(lines, key, hint).value;
    LinesHaveNoLf(text);
    forall i | 0 <= i < |out| ensures LF !in out[i] {
      SubsequenceMembers(out, lines, out[i]);
    }
    JoinedLines(out);
    assert Join(out) + "" == Join(out);
  }

  /** The cap is not what ends the loop: after as many rounds as the text has lines, further
      rounds change nothing. */
  lemma {:induction false} LoopEndsByItself(parse: string -> Outcome, text: string, rounds: nat)
    requires rounds >= |Lines(text)|
    ensures Dedup(parse, text, rounds + 1) == Dedup(parse, text, rounds)
    decreases rounds
  {
    hide RemoveText, Lines;
    match parse(text)
    case Duplicate(key, line) =>
      if RemoveText(text, key, line).Some? {
        var next := RemoveText(text, key, line).value;
        RemoveTextShrinks(text, key, line);
        LoopEndsByItself(parse, next, rounds - 1);
      }
    case _ =>
  }

  // ----- the loop on printed trees

  /** The tree in which every mapping, however deep, keeps the last entry of each key. */
  function Normal(items: seq<Item>): seq<Item>
    decreases items
  {
    if items == [] then []
    else if items[0].Entry? && Count(items[1..], items[0].key) > 0 then Normal(items[1..])
    else [NormalItem(items[0])] + Normal(items[1..])
  }

  function NormalItem(item: Item): Item
    decreases item
  {
    if item.Entry? && item.value.Map?
    then Entry(item.key, Map(item.value.indent, Normal(item.value.items)))
    else item
  }

  /** How many keys are duplicated, summed over all mappings. */
  function Duplicates(items: seq<Item>): nat
    decreases items
  {
    if items == [] then 0
    else (if items[0].Entry? && Count(items[1..], items[0].key) == 1 then 1 else 0)
         + Inside(items[0]) + Duplicates(items[1..])
  }

  function Inside(item: Item): nat
    decreases item
  {
    if item.Entry? && item.value.Map? then Duplicates(item.value.items) else 0
  }

  lemma {:induction false} KeepLastCounts(items: seq<Item>, key: string, k: string)
    ensures Count(KeepLast(items, key), k) == if k == key && Count(items, k) > 0 then 1 else Count(items, k)
  {
    if items != [] {
      KeepLastCounts(items[1..], key, k);
      var rest := KeepLast(items[1..], key);
      assert ([items[0]] + rest)[1..] == rest;
    }
  }

  lemma {:induction false} KeepLastKeepsNormal(items: seq<Item>, key: string)
    ensures Normal(KeepLast(items, key)) == Normal(items)
  {
    if items != [] {
      KeepLastKeepsNormal(items[1..], key);
      var rest := KeepLast(items[1..], key);
      assert ([items[0]] + rest)[1..] == rest;
      if items[0].Entry? {
        KeepLastCounts(items[1..], key, items[0].key);
      }
    }
  }

  lemma {:induction false} KeepLastDropsOne(items: seq<Item>, key: string)
    ensures Duplicates(KeepLast(items, key)) + (if Count(items, key) >= 2 then 1 else 0) <= Duplicates(items)
  {
    if items != [] {
      KeepLastDropsOne(items[1..], key);
      var rest := KeepLast(items[1..], key);
      assert ([items[0]] + rest)[1..] == rest;
      if items[0].Entry? {
        KeepLastCounts(items[1..], key, items[0].key);
      }
    }
  }

  lemma {:induction false} NoDuplicatesIsNormal(items: seq<Item>)
    requires Duplicates(items) == 0
    ensures Normal(items) == items
    ensures forall k :: Count(items, k) <= 1
    decreases items
  {
    if items != [] {
      NoDuplicatesIsNormal(items[1..]);
      if items[0].Entry? {
        assert Count(items[1..], items[0].key) <= 1;
        if items[0].value.Map? {
          NoDuplicatesIsNormal(items[0].value.items);
        }
      }
    }
  }

  /** Replacing one entry by another of the same key. */
  lemma {:induction false} ReplaceEntry(items: seq<Item>, i: nat, e: Item)
    requires i < |items| && items[i].Entry? && e.Entry? && e.key == items[i].key
    ensures forall k :: Count(items[i := e], k) == Count(items, k)
    ensures NormalItem(e) == NormalItem(items[i]) ==> Normal(items[i := e]) == Normal(items)
    ensures Duplicates(items[i := e]) == Duplicates(items) - Inside(items[i]) + Inside(e)
    decreases items
  {
    if i == 0 {
      assert items[0 := e][1..] == items[1..];
    } else {
      ReplaceEntry(items[1..], i - 1, e);
      assert items[i := e][1..] == items[1..][i - 1 := e];
    }
  }

  /** An edit anywhere keeps the normal form and removes a duplicated key. */
  lemma {:induction false} EditMakesProgress(items: seq<Item>, d: nat, p: nat, path: seq<nat>, key: string)
    requires IsPath(items, path) && Count(Target(items, d, p, path).items, key) >= 2
    ensures Normal(KeepLastAt(items, path, key)) == Normal(items)
    ensures Duplicates(KeepLastAt(items, path, key)) < Duplicates(items)
    decreases path
  {
    if path == [] {
      KeepLastKeepsNormal(items, key);
      KeepLastDropsOne(items, key);
    } else {
      var i := path[0];
      var e := items[i];
      var q := p + |PrintItems(items[..i], d)| + 1;
      EditMakesProgress(e.value.items, e.value.indent, q, path[1..], key);
      var e' := e.(value := e.value.(items := KeepLastAt(e.value.items, path[1..], key)));
      ReplaceEntry(items, i, e');
    }
  }

  // ----- edits keep trees well-formed

  ghost predicate Doc(items: seq<Item>, d: nat) {
    WfItems(items, d) && items != [] && items[|items| - 1].Entry?
  }

  lemma {:induction false} KeepLastDoc(items: seq<Item>, d: nat, key: string)
    requires WfItems(items, d)
    ensures WfItems(KeepLast(items, key), d)
    ensures Doc(items, d) ==> Doc(KeepLast(items, key), d)
  {
    hide WfItem;
    if items != [] {
      KeepLastDoc(items[1..], d, key);
      if |items| > 1 {
        assert items[1..][|items[1..]| - 1] == items[|items| - 1];
      }
    }
  }

  lemma ReplaceDoc(items: seq<Item>, d: nat, i: nat, e: Item)
    requires WfItems(items, d) && i < |items| && WfItem(e, d) && e.Entry?
    ensures WfItems(items[i := e], d)
    ensures Doc(items, d) ==> Doc(items[i := e], d)
  {
    hide WfItem;
  }

  lemma NestedDoc(key: string, indent: nat, items: seq<Item>, d: nat)
    ensures WfItem(Entry(key, Map(indent, items)), d) <==> PlainKey(key) && indent > d && Doc(items, indent)
  {
    assert WfItem(Entry(key, Map(indent, items)), d)
      <==> PlainKey(key) && WfValue(Map(indent, items), d);
  }

  lemma {:induction false} KeepLastAtDoc(items: seq<Item>, d: nat, path: seq<nat>, key: string)
    requires WfItems(items, d) && IsPath(items, path)
    ensures WfItems(KeepLastAt(items, path, key), d)
    ensures Doc(items, d) ==> Doc(KeepLastAt(items, path, key), d)
    decreases path
  {
    hide WfItem, PlainKey;
    if path == [] {
      KeepLastDoc(items, d, key);
    } else {
      var e := items[path[0]];
      assert WfItem(e, d);
      NestedDoc(e.key, e.value.indent, e.value.items, d);
      KeepLastAtDoc(e.value.items, e.value.indent, path[1..], key);
      var sub := KeepLastAt(e.value.items, path[1..], key);
      NestedDoc(e.key, e.value.indent, sub, d);
      ReplaceDoc(items, d, path[0], Entry(e.key, Map(e.value.indent, sub)));
    }
  }

  /** The keys and values of a printed tree make clean lines, so the text gives them back. */
  lemma {:induction false} PrintIsClean(items: seq<Item>, d: nat)
    requires WfItems(items, d)
    ensures CleanLines(PrintItems(items, d))
    decreases items, 1
  {
    if items != [] {
      WfUnfold(items, d);
      PrintIsClean(items[1..], d);
      match items[0]
      case Aside(_) =>
      case Entry(key, value) =>
        HeadIsClean(d, key, value);
        assert WfValue(value, d);
        if value.Map? {
          PrintIsClean(value.items, value.indent);
        }
        assert CleanLines(PrintTail(value));
    }
  }

  lemma HeadIsClean(d: nat, key: string, value: Value)
    requires PlainKey(key) && WfValue(value, d)
    ensures CleanLine(HeadLine(d, key, value))
  {
    assert LF !in Blanks(d);
  }

  /** No mapping has a duplicate, to be dropped, that holds a list at its own indent. */
  ghost predicate NoListDropped(items: seq<Item>)
    decreases items
  {
    && (forall k :: !DropsList(items, k))
    && forall i :: 0 <= i < |items| && items[i].Entry? && items[i].value.Map? ==> NoListDropped(items[i].value.items)
  }

  lemma {:induction false} KeepLastDropsNoList(items: seq<Item>, key: string, k: string)
    requires DropsList(KeepLast(items, key), k)
    ensures DropsList(items, k)
  {
    if items != [] {
      var rest := KeepLast(items[1..], key);
      assert ([items[0]] + rest)[1..] == rest;
      KeepLastCounts(items[1..], key, k);
      if DropsList(rest, k) {
        KeepLastDropsNoList(items[1..], key, k);
      }
    }
  }

  lemma {:induction false} KeepLastMembers(items: seq<Item>, key: string, e: Item)
    requires e in KeepLast(items, key)
    ensures e in items
  {
    if e in KeepLast(items[1..], key) {
      KeepLastMembers(items[1..], key, e);
    }
  }

  lemma {:induction false} ReplaceDropsNoList(items: seq<Item>, i: nat, e: Item, k: string)
    requires i < |items| && items[i].Entry? && e.Entry? && e.key == items[i].key
    requires !e.value.List? && DropsList(items[i := e], k)
    ensures DropsList(items, k)
    decreases items
  {
    if i == 0 {
      assert items[0 := e][1..] == items[1..];
    } else {
      assert items[i := e][1..] == items[1..][i - 1 := e];
      ReplaceEntry(items[1..], i - 1, e);
      if DropsList(items[i := e][1..], k) {
        ReplaceDropsNoList(items[1..], i - 1, e, k);
      }
    }
  }

  lemma {:induction false} EditDropsNoList(items: seq<Item>, path: seq<nat>, key: string)
    requires NoListDropped(items) && IsPath(items, path)
    ensures NoListDropped(KeepLastAt(items, path, key))
    decreases path
  {
    var out := KeepLastAt(items, path, key);
    if path == [] {
      forall k ensures !DropsList(out, k) {
        if DropsList(out, k) {
          KeepLastDropsNoList(items, key, k);
        }
      }
      forall i | 0 <= i < |out| && out[i].Entry? && out[i].value.Map? ensures NoListDropped(out[i].value.items) {
        KeepLastMembers(items, key, out[i]);
      }
    } else {
      var e := items[path[0]];
      EditDropsNoList(e.value.items, path[1..], key);
      forall k ensures !DropsList(out, k) {
        if DropsList(out, k) {
          ReplaceDropsNoList(items, path[0], out[path[0]], k);
        }
      }
    }
  }

  lemma {:induction false} TargetDropsNoList(items: seq<Item>, d: nat, p: nat, path: seq<nat>, key: string)
    requires NoListDropped(items) && IsPath(items, path)
    ensures !DropsList(Target(items, d, p, path).items, key)
    decreases path
  {
    if path != [] {
      var v := items[path[0]].value;
      TargetDropsNoList(v.items, v.indent, p + |PrintItems(items[..path[0]], d)| + 1, path[1..], key);
    }
  }

  // ----- the loop on a printed tree

  function Printed(items: seq<Item>, d: nat): string {
    Unlines(PrintItems(items, d))
  }

  /** `line` (1-based) holds an entry of a key that its mapping has at least twice. */
  ghost predicate OnDuplicate(items: seq<Item>, d: nat, path: seq<nat>, key: string, line: nat) {
    && IsPath(items, path) && line >= 1
    && var t := Target(items, d, 0, path);
       line - 1 in Starts(t.items, t.indent, key, t.line) && Count(t.items, key) >= 2
  }

  lemma {:induction false} CountedIsPlain(items: seq<Item>, d: nat, key: string)
    requires WfItems(items, d) && Count(items, key) > 0
    ensures PlainKey(key)
  {
    hide PlainKey, WfValue;
    assert WfItem(items[0], d);
    if !(items[0].Entry? && items[0].key == key) {
      CountedIsPlain(items[1..], d, key);
    }
  }

  lemma {:induction false} TargetIsWf(items: seq<Item>, d: nat, p: nat, path: seq<nat>)
    requires WfItems(items, d) && IsPath(items, path)
    ensures var t := Target(items, d, p, path); WfItems(t.items, t.indent)
    decreases path
  {
    if path != [] {
      var v := items[path[0]].value;
      assert WfItem(items[path[0]], d) && WfValue(v, d);
      TargetIsWf(v.items, v.indent, p + |PrintItems(items[..path[0]], d)| + 1, path[1..]);
    }
  }

  lemma {:induction false} JoinIsUnlines(lines: seq<string>)
    requires lines != []
    ensures Join(lines) + [LF] == Unlines(lines)
  {
    if |lines| > 1 {
      JoinIsUnlines(lines[1..]);
    } else {
      assert lines[0] + [LF] + "" == lines[0] + [LF];
    }
  }

  lemma PrintNotEmpty(items: seq<Item>, d: nat)
    requires items != []
    ensures PrintItems(items, d) != []
  {
  }

  /** From lines to text: on clean lines the edit of the text is the text of the edited lines. */
  lemma TextOfEdit(lines: seq<string>, key: string, line: nat, out: seq<string>)
    requires CleanLines(lines) && out != [] && 1 <= line <= |lines|
    requires Remove(lines, key, line - 1) == Some(out)
    ensures RemoveText(Unlines(lines), key, line) == Some(Unlines(out))
  {
    hide Remove, Lines, Join, Unlines;
    LinesOfUnlines(lines);
    JoinIsUnlines(lines);
    JoinIsUnlines(out);
  }

  lemma OpenTextLines(lines: seq<string>)
    requires CleanLines(lines) && lines != [] && lines[|lines| - 1] != ""
    ensures Lines(Join(lines)) == lines && !EndsWith(Join(lines), [LF])
  {
    hide *;
    CleanParts(lines);
    SplitJoin(lines);
    LinesOfPieces(Join(lines));
    JoinEnds(lines);
    NoFinalLf(Join(lines));
  }

  lemma CleanParts(lines: seq<string>)
    requires CleanLines(lines) && lines != [] && lines[|lines| - 1] != ""
    ensures forall i :: 0 <= i < |lines| ==> LF !in lines[i]
    ensures var n := |lines| - 1;
            && StripCrs(lines[..n]) == lines[..n] && lines == lines[..n] + [lines[n]]
            && lines[n][|lines[n]| - 1] != LF
  {
    var last := lines[|lines| - 1];
    assert last[|last| - 1] in last;
  }

  lemma LinesOfPieces(text: string)
    ensures Lines(text) == StripCrs(Split(text).complete) + if Split(text).rest == "" then [] else [Split(text).rest]
  {
    hide Split, StripCrs;
  }

  lemma NoFinalLf(s: string)
    requires s != "" && s[|s| - 1] != LF
    ensures !EndsWith(s, [LF])
  {
  }

  lemma {:induction false} JoinEnds(lines: seq<string>)
    requires lines != [] && lines[|lines| - 1] != ""
    ensures var s, last := Join(lines), lines[|lines| - 1]; s != "" && s[|s| - 1] == last[|last| - 1]
  {
    if |lines| > 1 {
      JoinEnds(lines[1..]);
    }
  }

  /** The same for a text whose last line has no LF: it has none afterwards. */
  lemma {:induction false} OpenTextOfEdit(lines: seq<string>, key: string, line: nat, out: seq<string>)
    requires CleanLines(lines) && lines != [] && lines[|lines| - 1] != "" && 1 <= line <= |lines|
    requires Remove(lines, key, line - 1) == Some(out)
    ensures RemoveText(Join(lines), key, line) == Some(Join(out))
  {
    hide Remove, Lines, Join, EndsWith;
    OpenTextLines(lines);
    assert Join(out) + "" == Join(out);
  }

  /** A line number before the first line stands for it, and one behind the last for that. */
  lemma {:induction false} HintIsClamped(text: string, key: string, line: nat)
    requires Lines(text) != []
    ensures RemoveText(text, key, 0) == RemoveText(text, key, 1)
    ensures line > |Lines(text)| ==> RemoveText(text, key, line) == RemoveText(text, key, |Lines(text)|)
  {
    hide Remove, Lines, Join;
  }

  /** One round on a printed tree. */
  lemma RoundOnTree(items: seq<Item>, d: nat, path: seq<nat>, key: string, line: nat)
    requires Doc(items, d) && NoListDropped(items) && OnDuplicate(items, d, path, key, line)
    ensures RemoveText(Printed(items, d), key, line) == Some(Printed(KeepLastAt(items, path, key), d))
    ensures Printed(KeepLastAt(items, path, key), d) != Printed(items, d)
  {
    hide Remove, RemoveText, WfItems, PrintItems, PlainKey, Starts, Lines, Unlines, DropsList, NoListDropped;
    var t := Target(items, d, 0, path);
    var lines := PrintItems(items, d);
    var edited := KeepLastAt(items, path, key);
    var out := PrintItems(edited, d);
    TargetIsWf(items, d, 0, path);
    CountedIsPlain(t.items, t.indent, key);
    TargetDropsNoList(items, d, 0, path, key);
    EnclosesNothing(d, []);
    RepairIsLastWins([], items, d, [], path, key, line - 1);
    assert [] + lines + [] == lines && [] + out + [] == out;
    PrintIsClean(items, d);
    KeepLastAtDoc(items, d, path, key);
    PrintNotEmpty(edited, d);
    TargetInside(items, d, 0, path);
    TextOfEdit(lines, key, line, out);
    RemoveTextShrinks(Printed(items, d), key, line);
  }

  lemma {:induction false} TargetInside(items: seq<Item>, d: nat, p: nat, path: seq<nat>)
    requires IsPath(items, path)
    ensures var t := Target(items, d, p, path);
            t.line + |PrintItems(t.items, t.indent)| <= p + |PrintItems(items, d)|
    decreases path
  {
    hide HeadLine, PrintItems;
    if path != [] {
      var v := items[path[0]].value;
      PrintAround(items, path[0], d);
      TargetInside(v.items, v.indent, p + |PrintItems(items[..path[0]], d)| + 1, path[1..]);
    }
  }

  /** The parser told the truth in every round: it parses a tree without duplicates, and else
      names a duplicate. */
  ghost predicate Truthful(parse: string -> Outcome, items: seq<Item>, d: nat, rounds: nat)
    decreases rounds
  {
    rounds == 0
    || (match parse(Printed(items, d))
        case Parsed => Duplicates(items) == 0
        case Duplicate(key, line) =>
          exists path :: OnDuplicate(items, d, path, key, line)
                         && Truthful(parse, KeepLastAt(items, path, key), d, rounds - 1)
        case OtherError => false)
  }

  lemma {:induction false} DuplicateInOrBelow(items: seq<Item>)
    requires Duplicates(items) > 0
    ensures (exists key :: Count(items, key) >= 2) || exists i :: 0 <= i < |items| && Inside(items[i]) > 0
    decreases items
  {
    hide Inside;
    if items[0].Entry? && Count(items[1..], items[0].key) == 1 {
      assert Count(items, items[0].key) >= 2;
    } else if Inside(items[0]) == 0 {
      DuplicateInOrBelow(items[1..]);
      if key :| Count(items[1..], key) >= 2 {
        assert Count(items, key) >= 2;
      } else {
        var i :| 0 <= i < |items[1..]| && Inside(items[1..][i]) > 0;
        assert items[i + 1] == items[1..][i];
      }
    }
  }

  lemma {:induction false} FindDuplicate(items: seq<Item>, d: nat, p: nat)
    returns (path: seq<nat>, key: string, line: nat)
    requires Duplicates(items) > 0
    ensures IsPath(items, path)
    ensures var t := Target(items, d, p, path);
            line in Starts(t.items, t.indent, key, t.line) && Count(t.items, key) >= 2
    decreases items
  {
    hide Duplicates, PrintItems, Count;
    DuplicateInOrBelow(items);
    if k :| Count(items, k) >= 2 {
      path, key, line := [], k, Starts(items, d, k, p)[0];
    } else {
      var i: nat :| i < |items| && Inside(items[i]) > 0;
      var v := items[i].value;
      var below: seq<nat>;
      below, key, line := FindDuplicate(v.items, v.indent, p + |PrintItems(items[..i], d)| + 1);
      path := [i] + below;
      assert path[1..] == below;
    }
  }

  /** There is something to report, on some line, exactly while a key is duplicated. */
  lemma {:induction false} DuplicatesShow(items: seq<Item>, d: nat)
    ensures Duplicates(items) > 0 <==> exists path, key, line :: OnDuplicate(items, d, path, key, line)
  {
    hide Duplicates, Target, IsPath, Starts;
    if Duplicates(items) > 0 {
      var path, key, line := FindDuplicate(items, d, 0);
      assert OnDuplicate(items, d, path, key, line + 1);
    }
    if path, key, line :| OnDuplicate(items, d, path, key, line) {
      EditMakesProgress(items, d, 0, path, key);
    }
  }

  lemma {:induction false} KeepLastPrintsLess(items: seq<Item>, d: nat, key: string)
    ensures |PrintItems(KeepLast(items, key), d)| + (if Count(items, key) >= 2 then 1 else 0) <= |PrintItems(items, d)|
  {
    hide PrintItem;
    if items != [] {
      KeepLastPrintsLess(items[1..], d, key);
      var rest := KeepLast(items[1..], key);
      assert ([items[0]] + rest)[1..] == rest;
    }
  }

  lemma {:induction false} EditPrintsLess(items: seq<Item>, d: nat, p: nat, path: seq<nat>, key: string)
    requires IsPath(items, path) && Count(Target(items, d, p, path).items, key) >= 2
    ensures |PrintItems(KeepLastAt(items, path, key), d)| < |PrintItems(items, d)|
    decreases path
  {
    hide PrintItems, HeadLine, Count, KeepLast;
    if path == [] {
      KeepLastPrintsLess(items, d, key);
    } else {
      var i := path[0];
      var v := items[i].value;
      EditPrintsLess(v.items, v.indent, p + |PrintItems(items[..i], d)| + 1, path[1..], key);
      var out := KeepLastAt(items, path, key);
      assert out[..i] == items[..i] && out[i + 1..] == items[i + 1..];
      PrintAround(items, i, d);
      PrintAround(out, i, d);
    }
  }

  /** An edit at a duplicate leaves a document of fewer lines. */
  lemma EditShortens(items: seq<Item>, d: nat, path: seq<nat>, key: string, line: nat)
    requires Doc(items, d) && OnDuplicate(items, d, path, key, line)
    ensures IsPath(items, path) && Doc(KeepLastAt(items, path, key), d)
    ensures |Lines(Printed(KeepLastAt(items, path, key), d))| < |Lines(Printed(items, d))|
  {
    hide WfItems, PrintItems, Lines, Unlines, KeepLastAt, IsPath, Target, Starts;
    var out := KeepLastAt(items, path, key);
    KeepLastAtDoc(items, d, path, key);
    EditPrintsLess(items, d, 0, path, key);
    PrintIsClean(items, d);
    LinesOfUnlines(PrintItems(items, d));
    PrintIsClean(out, d);
    LinesOfUnlines(PrintItems(out, d));
  }

  /** What a parser says of longer texts than those of the loop does not matter. */
  lemma {:induction false} TruthfulAgrees(p: string -> Outcome, q: string -> Outcome, items: seq<Item>, d: nat,
                                          rounds: nat)
    requires Doc(items, d) && Truthful(q, items, d, rounds)
    requires forall s :: |Lines(s)| <= |Lines(Printed(items, d))| ==> p(s) == q(s)
    ensures Truthful(p, items, d, rounds)
    decreases rounds
  {
    hide Doc, IsPath, Target, Starts, Lines, Printed, Duplicates, KeepLastAt;
    var text := Printed(items, d);
    assert p(text) == q(text);
    if rounds > 0 && p(text).Duplicate? {
      var key, line := p(text).key, p(text).line;
      var path :| OnDuplicate(items, d, path, key, line) && Truthful(q, KeepLastAt(items, path, key), d, rounds - 1);
      EditShortens(items, d, path, key, line);
      TruthfulAgrees(p, q, KeepLastAt(items, path, key), d, rounds - 1);
    }
  }

  /** Every well-formed tree has a parser that tells the truth in every round. */
  lemma {:induction false} TruthfulParserExists(items: seq<Item>, d: nat, rounds: nat)
    returns (parse: string -> Outcome)
    requires Doc(items, d)
    ensures Truthful(parse, items, d, rounds)
    decreases rounds
  {
    hide Doc, OnDuplicate, Lines, Printed, Duplicates, KeepLastAt;
    parse := (s: string) => Parsed;
    if rounds > 0 && Duplicates(items) > 0 {
      DuplicatesShow(items, d);
      var path, key, line :| OnDuplicate(items, d, path, key, line);
      EditShortens(items, d, path, key, line);
      var text, next := Printed(items, d), KeepLastAt(items, path, key);
      var later := TruthfulParserExists(next, d, rounds - 1);
      parse := (s: string) => if s == text then Duplicate(key, line) else later(s);
      TruthfulAgrees(parse, later, next, d, rounds - 1);
    }
  }

  /** The loop stays on printed trees and never changes what the last entries say; and when
      there are no more duplicated keys than rounds, the result is the normal form itself. */
  lemma {:induction false} LoopOnTree(parse: string -> Outcome, items: seq<Item>, d: nat, rounds: nat)
    returns (out: seq<Item>)
    requires Doc(items, d) && NoListDropped(items) && Truthful(parse, items, d, rounds)
    ensures Dedup(parse, Printed(items, d), rounds) == Printed(out, d)
    ensures Normal(out) == Normal(items)
    ensures Duplicates(items) <= rounds ==> out == Normal(items)
    decreases rounds
  {
    hide *;
    out := items;
    NormalIfNone(items);
    if rounds > 0 && parse(Printed(items, d)).Duplicate? {
      var path := TruthfulRound(parse, items, d, rounds);
      out := LoopOnTree(parse, KeepLastAt(items, path, parse(Printed(items, d)).key), d, rounds - 1);
    } else {
      TruthfulEnd(parse, items, d, rounds);
    }
  }

  /** A round of a truthful parser that names a duplicate edits the tree it printed. */
  lemma TruthfulRound(parse: string -> Outcome, items: seq<Item>, d: nat, rounds: nat) returns (path: seq<nat>)
    requires Doc(items, d) && NoListDropped(items) && Truthful(parse, items, d, rounds)
    requires rounds > 0 && parse(Printed(items, d)).Duplicate?
    ensures var key, line := parse(Printed(items, d)).key, parse(Printed(items, d)).line;
            && OnDuplicate(items, d, path, key, line) && IsPath(items, path)
            && var out := KeepLastAt(items, path, key);
               && Truthful(parse, out, d, rounds - 1) && Doc(out, d) && NoListDropped(out)
               && Normal(out) == Normal(items) && Duplicates(out) < Duplicates(items)
               && Dedup(parse, Printed(items, d), rounds) == Dedup(parse, Printed(out, d), rounds - 1)
  {
    hide Doc, NoListDropped, RemoveText, Printed, Normal, Duplicates, KeepLastAt;
    var key, line := parse(Printed(items, d)).key, parse(Printed(items, d)).line;
    path :| OnDuplicate(items, d, path, key, line) && Truthful(parse, KeepLastAt(items, path, key), d, rounds - 1);
    EditOnDuplicate(items, d, path, key, line);
    RoundOnTree(items, d, path, key, line);
  }

  lemma TruthfulEnd(parse: string -> Outcome, items: seq<Item>, d: nat, rounds: nat)
    requires Truthful(parse, items, d, rounds) && (rounds == 0 || !parse(Printed(items, d)).Duplicate?)
    ensures Dedup(parse, Printed(items, d), rounds) == Printed(items, d)
    ensures rounds > 0 ==> Duplicates(items) == 0
  {
    hide RemoveText, Printed, Duplicates;
  }

  lemma NormalIfNone(items: seq<Item>)
    ensures Duplicates(items) == 0 ==> Normal(items) == items
  {
    if Duplicates(items) == 0 {
      NoDuplicatesIsNormal(items);
    }
  }

  lemma EditOnDuplicate(items: seq<Item>, d: nat, path: seq<nat>, key: string, line: nat)
    requires OnDuplicate(items, d, path, key, line) && Doc(items, d) && NoListDropped(items)
    ensures IsPath(items, path)
    ensures var out := KeepLastAt(items, path, key);
            Doc(out, d) && NoListDropped(out) && Normal(out) == Normal(items) && Duplicates(out) < Duplicates(items)
  {
    hide WfItems, NoListDropped, Normal, Duplicates;
    KeepLastAtDoc(items, d, path, key);
    EditDropsNoList(items, path, key);
    EditMakesProgress(items, d, 0, path, key);
  }

  /** What the documentation of the repair promises: of every duplicated key of every mapping
      the later value is kept and nothing else changes, up to 64 duplicated keys. */
  lemma {:induction false} RepairedTextIsNormal(parse: string -> Outcome, items: seq<Item>, d: nat)
    requires Doc(items, d) && NoListDropped(items) && Truthful(parse, items, d, 64)
    requires Duplicates(items) <= 64
    ensures Dedup(parse, Printed(items, d), 64) == Printed(Normal(items), d)
  {
    var _ := LoopOnTree(parse, items, d, 64);
  }

  // ----- the cap

  predicate Flat(items: seq<Item>) {
    forall i :: 0 <= i < |items| ==> !(items[i].Entry? && items[i].value.Map?)
  }

  lemma {:induction false} FlatKeepLast(items: seq<Item>, key: string)
    requires Flat(items)
    ensures Flat(KeepLast(items, key))
    ensures Duplicates(KeepLast(items, key)) + (if Count(items, key) >= 2 then 1 else 0) == Duplicates(items)
  {
    if items != [] {
      FlatKeepLast(items[1..], key);
      var rest := KeepLast(items[1..], key);
      assert ([items[0]] + rest)[1..] == rest;
      if items[0].Entry? {
        KeepLastCounts(items[1..], key, items[0].key);
      }
    }
  }

  lemma {:induction false} FlatNormalHasNone(items: seq<Item>)
    requires Flat(items)
    ensures Duplicates(Normal(items)) == 0
    ensures forall k :: Count(Normal(items), k) == if Count(items, k) > 0 then 1 else 0
  {
    if items != [] {
      FlatNormalHasNone(items[1..]);
      var rest := Normal(items[1..]);
      assert ([items[0]] + rest)[1..] == rest;
    }
  }

  /** On a flat mapping each round removes one duplicated key and no more, so what is left after
      the rounds is exactly what the cap leaves. */
  lemma {:induction false} CapIsTight(parse: string -> Outcome, items: seq<Item>, d: nat, rounds: nat)
    returns (out: seq<Item>)
    requires Doc(items, d) && NoListDropped(items) && Flat(items) && Truthful(parse, items, d, rounds)
    ensures Dedup(parse, Printed(items, d), rounds) == Printed(out, d)
    ensures Duplicates(out) == if Duplicates(items) <= rounds then 0 else Duplicates(items) - rounds
    ensures out == Normal(items) <==> Duplicates(items) <= rounds
    decreases rounds
  {
    hide *;
    out := items;
    FlatNormalHasNone(items);
    NormalIfNone(items);
    if rounds > 0 && parse(Printed(items, d)).Duplicate? {
      var key, line := parse(Printed(items, d)).key, parse(Printed(items, d)).line;
      var path := TruthfulRound(parse, items, d, rounds);
      FlatPathIsRoot(items, d, path, key, line);
      FlatKeepLast(items, key);
      out := CapIsTight(parse, KeepLast(items, key), d, rounds - 1);
    } else {
      TruthfulEnd(parse, items, d, rounds);
    }
  }

  lemma FlatPathIsRoot(items: seq<Item>, d: nat, path: seq<nat>, key: string, line: nat)
    requires Flat(items) && OnDuplicate(items, d, path, key, line)
    ensures path == [] && KeepLastAt(items, path, key) == KeepLast(items, key) && Count(items, key) >= 2
  {
  }

  // ----- the whole loop

  /** On a printed tree whose parser is truthful: the normal form if at most 64 keys are duplicated;
      and on a flat mapping with more, all but 64 of them are still there. */
  method DedupBlockYamlKeys(parse: string -> Outcome, input: string) returns (current: string)
    ensures current == Dedup(parse, input, 64)
    ensures forall items, d :: input == Printed(items, d) && Repairable(parse, items, d) && Duplicates(items) <= 64
              ==> current == Printed(Normal(items), d)
    ensures forall items, d :: input == Printed(items, d) && Repairable(parse, items, d) && Flat(items)
              && Duplicates(items) > 64
              ==> exists out :: current == Printed(out, d) && Duplicates(out) == Duplicates(items) - 64
  {
    hide *;
    current := input;
    LoopKeepsPromise(parse, input);
    for i := 0 to 64
      invariant Dedup(parse, current, 64 - i) == Dedup(parse, input, 64)
    {
      DedupStep(parse, current, 64 - i);
      var outcome := parse(current);
      if !outcome.Duplicate? {
        return;
      }
      var next := RemoveEarlierKeyOccurrence(current, outcome.key, outcome.line);
      if next.None? || next.value == current {
        return;
      }
      current := next.value;
    }
    DedupEnd(parse, current);
  }

  /** A well-formed tree without dropped lists, and a parser that is truthful in 64 rounds. */
  ghost predicate Repairable(parse: string -> Outcome, items: seq<Item>, d: nat) {
    Doc(items, d) && NoListDropped(items) && Truthful(parse, items, d, 64)
  }

  lemma LoopKeepsPromise(parse: string -> Outcome, input: string)
    ensures forall items, d :: input == Printed(items, d) && Repairable(parse, items, d) && Duplicates(items) <= 64
              ==> Dedup(parse, input, 64) == Printed(Normal(items), d)
    ensures forall items, d :: input == Printed(items, d) && Repairable(parse, items, d) && Flat(items)
              && Duplicates(items) > 64
              ==> exists out :: Dedup(parse, input, 64) == Printed(out, d) && Duplicates(out) == Duplicates(items) - 64
  {
    hide Doc, NoListDropped, Truthful, Dedup, Printed, Normal, Duplicates, Flat;
    forall items, d | input == Printed(items, d) && Repairable(parse, items, d) && Duplicates(items) <= 64
      ensures Dedup(parse, input, 64) == Printed(Normal(items), d)
    {
      RepairedTextIsNormal(parse, items, d);
    }
    forall items, d | input == Printed(items, d) && Repairable(parse, items, d) && Flat(items)
                      && Duplicates(items) > 64
      ensures exists out :: Dedup(parse, input, 64) == Printed(out, d) && Duplicates(out) == Duplicates(items) - 64
    {
      var out := CapIsTight(parse, items, d, 64);
    }
  }

  lemma DedupStep(parse: string -> Outcome, text: string, rounds: nat)
    requires rounds > 0
    ensures var r := if parse(text).Duplicate? then RemoveText(text, parse(text).key, parse(text).line) else None;
            Dedup(parse, text, rounds)
            == if r.None? || r.value == text then text else Dedup(parse, r.value, rounds - 1)
  {
    hide RemoveText;
  }

  lemma DedupEnd(parse: string -> Outcome, text: string)
    ensures Dedup(parse, text, 0) == text
  {
  }
}
