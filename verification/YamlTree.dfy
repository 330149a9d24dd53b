/** Ordered key/value trees, their block-style printed form, and the meaning of the duplicate
    repair: editing the printed text is printing the edited tree, and the last duplicate wins. */
module YamlTree {
  import opened Text
  import opened YamlRepair

  /** `Leaf` is a scalar on the key line (`text`), possibly followed by deeper lines (a block
      scalar or a nested list); `List` is a list whose dashes stand at the indent of the key
      itself; `Map` is a nested mapping. */
  datatype Value =
    | Leaf(text: string, tail: seq<string>)
    | List(lines: seq<string>)
    | Map(indent: nat, items: seq<Item>)

  /** A mapping is a sequence of entries with blank lines and comments between them. */
  datatype Item = Aside(line: string) | Entry(key: string, value: Value)

  // ----- printing

  function HeadLine(d: nat, key: string, value: Value): string {
    Blanks(d) + (key + ":" + if value.Leaf? && value.text != "" then " " + value.text else "")
  }

  function PrintTail(value: Value): seq<string>
    decreases value
  {
    match value
    case Leaf(_, tail) => tail
    case List(lines) => lines
    case Map(indent, items) => PrintItems(items, indent)
  }

  function PrintItem(item: Item, d: nat): (r: seq<string>)
    ensures r != []
    decreases item
  {
    match item
    case Aside(line) => [line]
    case Entry(key, value) => [HeadLine(d, key, value)] + PrintTail(value)
  }

  function PrintItems(items: seq<Item>, d: nat): seq<string>
    decreases items
  {
    if items == [] then [] else PrintItem(items[0], d) + PrintItems(items[1..], d)
  }

  // ----- well-formed trees

  ghost predicate PlainKey(key: string) {
    && key != "" && key[0] !in WHITESPACE && key[0] != '#'
    && !("- " <= key) && LF !in key
    && forall i :: !ColonBlankAt(key, i)
  }

  ghost predicate ColonBlankAt(s: string, i: int) {
    0 <= i < |s| - 1 && s[i] == ':' && s[i + 1] == ' '
  }

  ghost predicate DashLine(line: string) {
    var t := TrimStart(line);
    t == "-" || "- " <= t
  }

  /** Noise or deeper than `d`. */
  ghost predicate Under(line: string, d: nat) {
    KindOf(line).Noise? || Deeper(KindOf(line), d)
  }

  ghost predicate EndsInContent(lines: seq<string>) {
    lines != [] && KindOf(lines[|lines| - 1]).Content?
  }

  ghost predicate ListLine(line: string, d: nat) {
    Under(line, d) || (KindOf(line) == Content(d) && DashLine(line))
  }

  ghost predicate WfValue(value: Value, d: nat)
    decreases value
  {
    match value
    case Leaf(text, tail) =>
      && CleanLine(text) && CleanLines(tail)
      && (forall i :: 0 <= i < |tail| ==> Under(tail[i], d))
      && (tail == [] || EndsInContent(tail))
    case List(lines) =>
      && CleanLines(lines) && EndsInContent(lines)
      && (forall i :: 0 <= i < |lines| ==> ListLine(lines[i], d))
      && KindOf(lines[0]) == Content(d)
    case Map(indent, items) =>
      && indent > d && WfItems(items, indent)
      && items != [] && items[|items| - 1].Entry?
  }

  ghost predicate WfItem(item: Item, d: nat)
    decreases item
  {
    match item
    case Aside(line) => KindOf(line).Noise? && CleanLine(line)
    case Entry(key, value) => PlainKey(key) && WfValue(value, d)
  }

  /** Siblings stand at indent `d`; what is nested in them is deeper. */
  ghost predicate WfItems(items: seq<Item>, d: nat)
    decreases items
  {
    forall i :: 0 <= i < |items| ==> WfItem(items[i], d)
  }

  // ----- the edit on trees

  function Count(items: seq<Item>, key: string): nat {
    if items == [] then 0
    else (if items[0].Entry? && items[0].key == key then 1 else 0) + Count(items[1..], key)
  }

  /** All entries of the key but the last are gone, with everything under them. */
  function KeepLast(items: seq<Item>, key: string): seq<Item> {
    if items == [] then []
    else if items[0].Entry? && items[0].key == key && Count(items[1..], key) > 0 then KeepLast(items[1..], key)
    else [items[0]] + KeepLast(items[1..], key)
  }

  /** Some dropped duplicate holds a list at its own indent. */
  predicate DropsList(items: seq<Item>, key: string) {
    items != []
    && ((items[0].Entry? && items[0].key == key && Count(items[1..], key) > 0 && items[0].value.List?)
        || DropsList(items[1..], key))
  }

  /** What the line editor leaves of a mapping: the items of a dropped list stay behind. */
  function EditedLines(items: seq<Item>, d: nat, key: string): seq<string> {
    if items == [] then []
    else if items[0].Entry? && items[0].key == key && Count(items[1..], key) > 0 then
      (if items[0].value.List? then items[0].value.lines else []) + EditedLines(items[1..], d, key)
    else PrintItem(items[0], d) + EditedLines(items[1..], d, key)
  }

  lemma {:induction false} EditedLinesVsKeepLast(items: seq<Item>, d: nat, key: string)
    requires WfItems(items, d)
    ensures !DropsList(items, key) ==> EditedLines(items, d, key) == PrintItems(KeepLast(items, key), d)
    ensures DropsList(items, key) ==> |EditedLines(items, d, key)| > |PrintItems(KeepLast(items, key), d)|
  {
    if items != [] {
      EditedLinesVsKeepLast(items[1..], d, key);
      var rest := KeepLast(items[1..], key);
      if items[0].Entry? && items[0].key == key && Count(items[1..], key) > 0 {
        assert WfItem(items[0], d) && WfValue(items[0].value, d);
        assert items[0].value.List? ==> items[0].value.lines != [];
        var tail := EditedLines(items[1..], d, key);
        assert !items[0].value.List? ==> EditedLines(items, d, key) == tail;
      } else {
        assert ([items[0]] + rest)[1..] == rest;
      }
    }
  }

  // ----- facts about single lines

  lemma HeadLineFacts(d: nat, key: string, value: Value, k: string)
    requires PlainKey(key) && PlainKey(k)
    ensures KindOf(HeadLine(d, key, value)) == Content(d)
    ensures IsKeyAt(HeadLine(d, key, value), k, d) <==> k == key
  {
    hide *;
    var rest := key + ":" + if value.Leaf? && value.text != "" then " " + value.text else "";
    HeadRest(d, key, value);
    RestIsContent(d, key, rest);
    KeyAtIs(HeadLine(d, key, value), d, rest, k);
    if Holds(rest, k) {
      SameKey(rest, key, k);
    }
  }

  lemma HeadRest(d: nat, key: string, value: Value)
    ensures var rest := key + ":" + if value.Leaf? && value.text != "" then " " + value.text else "";
            HeadLine(d, key, value) == Blanks(d) + rest && Holds(rest, key)
  {
    var rest := key + ":" + if value.Leaf? && value.text != "" then " " + value.text else "";
    if value.Leaf? && value.text != "" {
      assert rest[..|key| + 2] == key + ": ";
    }
  }

  lemma RestIsContent(d: nat, key: string, rest: string)
    requires PlainKey(key) && Holds(rest, key)
    ensures TrimStart(Blanks(d) + rest) == rest && Indent(Blanks(d) + rest) == d
    ensures KindOf(Blanks(d) + rest) == Content(d)
  {
    HeldKey(rest, key);
    assert rest[0] == key[0];
    IndentOfPadded(d, rest);
    TrimLeftPadded(Blanks(d), rest, WHITESPACE);
  }

  lemma KeyAtIs(line: string, d: nat, rest: string, k: string)
    requires TrimStart(line) == rest && Indent(line) == d
    ensures IsKeyAt(line, k, d) <==> Holds(rest, k)
  {
  }

  lemma SameKey(rest: string, a: string, b: string)
    requires PlainKey(a) && PlainKey(b) && Holds(rest, a) && Holds(rest, b)
    ensures a == b
  {
    hide PlainKey, Holds;
    KeyNotLonger(rest, a, b);
    KeyNotLonger(rest, b, a);
  }

  ghost predicate Holds(rest: string, key: string) {
    rest == key + ":" || key + ": " <= rest
  }

  /** The colon that ends a plain key is the first one before a blank, so the key is unique. */
  lemma KeyNotLonger(rest: string, a: string, b: string)
    requires PlainKey(a) && PlainKey(b) && Holds(rest, a) && Holds(rest, b)
    ensures |b| <= |a|
    ensures rest[..|a|] == a
  {
    assert rest[|a|] == ':' && rest[|b|] == ':' && rest[..|b|] == b;
    assert !ColonBlankAt(b, |a|);
  }

  // ----- printed mappings inside a document

  /** `block` stands in `lines` at `p`. */
  ghost predicate At(lines: seq<string>, p: nat, block: seq<string>) {
    p + |block| <= |lines| && lines[p..p + |block|] == block
  }

  lemma AtSplit(lines: seq<string>, p: nat, a: seq<string>, b: seq<string>)
    requires At(lines, p, a + b)
    ensures At(lines, p, a) && At(lines, p + |a|, b)
  {
    assert lines[p..p + |a|] == (a + b)[..|a|] == a;
    assert lines[p + |a|..p + |a| + |b|] == (a + b)[|a|..] == b;
  }

  lemma AtIndex(lines: seq<string>, p: nat, block: seq<string>, i: nat)
    requires At(lines, p, block) && p <= i < p + |block|
    ensures i < |lines| && lines[i] == block[i - p]
  {
  }

  /** No line of a well-formed printed mapping leaves it. */
  lemma {:induction false} PrintedStaysIn(items: seq<Item>, d: nat, i: nat)
    requires WfItems(items, d) && i < |PrintItems(items, d)|
    ensures var k := KindOf(PrintItems(items, d)[i]); k.Noise? || k.indent >= d
    decreases items, 1
  {
    hide KindOf, PlainKey, HeadLine, IsKeyAt, WfValue, WfItems, Under, ListLine;
    var first := PrintItem(items[0], d);
    WfUnfold(items, d);
    if i >= |first| {
      PrintedStaysIn(items[1..], d, i - |first|);
    } else if items[0].Entry? {
      if i == 0 {
        HeadLineFacts(d, items[0].key, items[0].value, items[0].key);
      } else {
        TailStaysIn(items[0].value, d, i - 1);
      }
    }
  }

  lemma {:induction false} TailStaysIn(value: Value, d: nat, i: nat)
    requires WfValue(value, d) && i < |PrintTail(value)|
    ensures var k := KindOf(PrintTail(value)[i]); k.Noise? || k.indent >= d
    ensures !value.List? ==> Under(PrintTail(value)[i], d)
    decreases value, 2
  {
    hide KindOf, PlainKey, HeadLine;
    match value
    case Leaf(_, tail) => assert Under(tail[i], d);
    case List(lines) => assert ListLine(lines[i], d);
    case Map(indent, items) => PrintedStaysIn(items, indent, i);
  }

  /** A printed value ends in a line that is not noise. */
  lemma {:induction false} TailEndsInContent(value: Value, d: nat)
    requires WfValue(value, d) && PrintTail(value) != []
    ensures EndsInContent(PrintTail(value))
    decreases value, 2
  {
    if value.Map? {
      ItemsEndInContent(value.items, value.indent);
    }
  }

  lemma {:induction false} ItemsEndInContent(items: seq<Item>, d: nat)
    requires WfItems(items, d) && items != [] && items[|items| - 1].Entry?
    ensures EndsInContent(PrintItems(items, d))
    decreases items, 1
  {
    hide KindOf, PlainKey, HeadLine, IsKeyAt, WfValue;
    assert WfItem(items[0], d);
    if |items| == 1 {
      assert PrintItems(items, d) == PrintItem(items[0], d);
      if PrintTail(items[0].value) == [] {
        HeadLineFacts(d, items[0].key, items[0].value, items[0].key);
      } else {
        TailEndsInContent(items[0].value, d);
      }
    } else {
      ItemsEndInContent(items[1..], d);
    }
  }

  /** Reading on from `from`, the first line that is not noise has at most indent `limit`. */
  ghost predicate Closed(ks: seq<Kind>, from: nat, limit: int)
    requires from <= |ks|
  {
    var next := SkipNoise(ks, from);
    next == |ks| || ks[next].indent <= limit
  }

  lemma {:induction false} PrintedKeepsClosed(lines: seq<string>, items: seq<Item>, d: nat, p: nat)
    requires WfItems(items, d) && At(lines, p, PrintItems(items, d))
    requires Closed(Kinds(lines), p + |PrintItems(items, d)|, d)
    ensures Closed(Kinds(lines), p, d)
    decreases items
  {
    hide KindOf, PlainKey, HeadLine, IsKeyAt, WfValue, At;
    if items != [] {
      var first := PrintItem(items[0], d);
      assert WfItem(items[0], d);
      AtSplit(lines, p, first, PrintItems(items[1..], d));
      AtIndex(lines, p, first, p);
      match items[0]
      case Aside(_) => PrintedKeepsClosed(lines, items[1..], d, p + 1);
      case Entry(key, value) => HeadLineFacts(d, key, value, key);
    }
  }

  lemma TailKinds(lines: seq<string>, value: Value, d: nat, p: nat)
    requires WfValue(value, d) && !value.List? && At(lines, p, PrintTail(value))
    ensures forall i :: p <= i < p + |PrintTail(value)| ==> Under(lines[i], d)
    ensures PrintTail(value) != [] ==> KindOf(lines[p + |PrintTail(value)| - 1]).Content?
  {
    hide KindOf, WfValue, Under, PrintTail;
    var tail := PrintTail(value);
    forall i | p <= i < p + |tail| ensures Under(lines[i], d) {
      AtIndex(lines, p, tail, i);
      TailStaysIn(value, d, i - p);
    }
    if tail != [] {
      TailEndsInContent(value, d);
      AtIndex(lines, p, tail, p + |tail| - 1);
    }
  }

  /** The block the editor finds under an entry is the entry, except that it does not see a
      list at the indent of the key. */
  lemma BlockOfEntry(lines: seq<string>, key: string, value: Value, d: nat, p: nat)
    requires WfValue(value, d) && p < |lines| && At(lines, p + 1, PrintTail(value))
    requires Closed(Kinds(lines), p + 1 + |PrintTail(value)|, d)
    ensures BlockEnd(Kinds(lines), p, d) == p + 1 + if value.List? then 0 else |PrintTail(value)|
  {
    hide KindOf, BlockEnd, At, PrintItems, WfItems;
    var ks := Kinds(lines);
    if value.List? {
      AtIndex(lines, p + 1, value.lines, p + 1);
      assert ks[p + 1] == Content(d);
      BlockEndIsTheBlock(ks, p, d, p + 1);
    } else {
      TailKinds(lines, value, d, p + 1);
      BlockEndIsTheBlock(ks, p, d, p + 1 + |PrintTail(value)|);
    }
  }

  // ----- the occurrences the editor collects

  /** The lines, counted from `p`, on which the direct entries of the key start. */
  function Starts(items: seq<Item>, d: nat, key: string, p: nat): (r: seq<nat>)
    ensures |r| == Count(items, key)
    ensures forall i :: 0 <= i < |r| ==> p <= r[i] < p + |PrintItems(items, d)|
  {
    if items == [] then []
    else
      (if items[0].Entry? && items[0].key == key then [p] else [])
      + Starts(items[1..], d, key, p + |PrintItem(items[0], d)|)
  }

  ghost predicate IsHit(lines: seq<string>, key: string, hint: nat, d: nat, i: nat)
    requires i < |lines|
  {
    IsKeyAt(lines[i], key, d) && SameParent(Kinds(lines), i, hint, d)
  }

  lemma {:induction false} NoHits(lines: seq<string>, key: string, hint: nat, d: nat, p: nat, q: nat)
    requires p <= q <= |lines|
    requires forall i :: p <= i < q ==> !IsHit(lines, key, hint, d, i)
    ensures Occurrences(lines, key, hint, d, p) == Occurrences(lines, key, hint, d, q)
    decreases q - p
  {
    if p < q {
      assert !IsHit(lines, key, hint, d, p);
      NoHits(lines, key, hint, d, p + 1, q);
    }
  }

  lemma OtherLineIsNoKey(line: string, key: string, d: nat)
    requires PlainKey(key) && ListLine(line, d)
    ensures !IsKeyAt(line, key, d)
  {
    var t := TrimStart(line);
    if IsKeyLine(line, key) {
      assert Holds(t, key) && t[0] == key[0];
      assert !IsNoise(line);
      if DashLine(line) {
        DashIsNoKey(t, key);
      }
    }
  }

  lemma HeldKey(t: string, key: string)
    requires Holds(t, key)
    ensures key <= t && |t| > |key| && t[|key|] == ':'
  {
    assert key + ":" <= t || key + ": " <= t;
  }

  lemma DashIsNoKey(t: string, key: string)
    requires PlainKey(key) && (t == "-" || "- " <= t)
    ensures !Holds(t, key)
  {
    if Holds(t, key) {
      HeldKey(t, key);
      assert false;
    }
  }

  /** Inside the printed mapping every line has the same parent as the hint. */
  ghost predicate InMapping(lines: seq<string>, d: nat, lo: nat, hi: nat) {
    lo <= hi <= |lines| && forall i :: lo <= i < hi ==> KindOf(lines[i]).Noise? || KindOf(lines[i]).indent >= d
  }

  lemma SameParentInside(lines: seq<string>, d: nat, lo: nat, hi: nat, a: nat, b: nat)
    requires InMapping(lines, d, lo, hi) && lo <= a < hi && lo <= b < hi
    ensures SameParent(Kinds(lines), a, b, d)
  {
  }

  lemma HitsInEntry(lines: seq<string>, key: string, value: Value, d: nat, k: string,
                    hint: nat, p: nat, lo: nat, hi: nat)
    requires PlainKey(key) && PlainKey(k) && WfValue(value, d)
    requires InMapping(lines, d, lo, hi) && lo <= hint < hi && lo <= p
    requires p + 1 + |PrintTail(value)| <= hi && At(lines, p, PrintItem(Entry(key, value), d))
    ensures Occurrences(lines, k, hint, d, p)
         == (if key == k then [p] else []) + Occurrences(lines, k, hint, d, p + 1 + |PrintTail(value)|)
  {
    hide KindOf, IsKeyAt, HeadLine, WfValue, PlainKey;
    var tail := PrintTail(value);
    var q := p + 1 + |tail|;
    AtSplit(lines, p, [HeadLine(d, key, value)], tail);
    AtIndex(lines, p, [HeadLine(d, key, value)], p);
    HeadLineFacts(d, key, value, k);
    SameParentInside(lines, d, lo, hi, p, hint);
    assert IsHit(lines, k, hint, d, p) <==> key == k;
    forall i | p + 1 <= i < q ensures !IsHit(lines, k, hint, d, i) {
      AtIndex(lines, p + 1, tail, i);
      TailLineIsNoKey(value, k, d, i - p - 1);
    }
    NoHits(lines, k, hint, d, p + 1, q);
  }

  lemma WfUnfold(items: seq<Item>, d: nat)
    requires items != [] && WfItems(items, d)
    ensures WfItem(items[0], d) && WfItems(items[1..], d)
  {
  }

  lemma {:induction false} HitsInMapping(lines: seq<string>, items: seq<Item>, d: nat, key: string,
                                         hint: nat, p: nat, lo: nat, hi: nat)
    requires WfItems(items, d) && PlainKey(key)
    requires InMapping(lines, d, lo, hi) && lo <= hint < hi
    requires lo <= p && p + |PrintItems(items, d)| == hi && At(lines, p, PrintItems(items, d))
    ensures Occurrences(lines, key, hint, d, p) == Starts(items, d, key, p) + Occurrences(lines, key, hint, d, hi)
    decreases items
  {
    hide At, InMapping, SameParent, KindOf, IsKeyAt, HeadLine, WfValue, WfItems, PlainKey, Occurrences;
    if items != [] {
      var first := PrintItem(items[0], d);
      var q := p + |first|;
      WfUnfold(items, d);
      AtSplit(lines, p, first, PrintItems(items[1..], d));
      HitsInMapping(lines, items[1..], d, key, hint, q, lo, hi);
      HitsInItem(lines, items[0], d, key, hint, p, lo, hi);
    }
  }

  lemma HitsInItem(lines: seq<string>, item: Item, d: nat, key: string, hint: nat, p: nat, lo: nat, hi: nat)
    requires PlainKey(key) && WfItem(item, d)
    requires InMapping(lines, d, lo, hi) && lo <= hint < hi && lo <= p
    requires p + |PrintItem(item, d)| <= hi && At(lines, p, PrintItem(item, d))
    ensures Occurrences(lines, key, hint, d, p)
         == (if item.Entry? && item.key == key then [p] else [])
            + Occurrences(lines, key, hint, d, p + |PrintItem(item, d)|)
  {
    hide InMapping, SameParent, HeadLine, WfValue, PlainKey, Occurrences, KindOf, IsKeyAt, At, ListLine;
    match item {
      case Aside(line) =>
        AtIndex(lines, p, [line], p);
        NoiseIsListLine(line, d);
        OtherLineIsNoKey(line, key, d);
        NoHits(lines, key, hint, d, p, p + 1);
      case Entry(k, value) =>
        HitsInEntry(lines, k, value, d, key, hint, p, lo, hi);
    }
  }

  lemma NoiseIsListLine(line: string, d: nat)
    requires KindOf(line).Noise?
    ensures ListLine(line, d)
  {
    hide KindOf;
  }

  lemma TailLineIsNoKey(value: Value, key: string, d: nat, i: nat)
    requires WfValue(value, d) && PlainKey(key) && i < |PrintTail(value)|
    ensures !IsKeyAt(PrintTail(value)[i], key, d)
  {
    if value.List? {
      assert ListLine(value.lines[i], d);
    } else {
      TailStaysIn(value, d, i);
    }
    OtherLineIsNoKey(PrintTail(value)[i], key, d);
  }

  /** The last line less indented than `d`, that of the parent, and behind it no key at `d`. */
  ghost predicate ParentAt(before: seq<string>, d: nat, k: int) {
    && 0 <= k < |before| && KindOf(before[k]).Content? && KindOf(before[k]).indent < d
    && forall i :: k < i < |before| ==> ListLine(before[i], d)
  }

  /** What may stand around a mapping at indent `d`: before it nothing, or its parent; after it, past
      noise, nothing or a line less indented. */
  ghost predicate Encloses(before: seq<string>, d: nat, after: seq<string>) {
    && (before == [] || exists k :: ParentAt(before, d, k))
    && Closed(Kinds(after), 0, d - 1)
  }

  lemma {:induction false} ClosedShifts(lines: seq<string>, p: nat, after: seq<string>, i: nat, limit: int)
    requires p <= |lines| && lines[p..] == after && i <= |after|
    ensures SkipNoise(Kinds(lines), p + i) == p + SkipNoise(Kinds(after), i)
    decreases |after| - i
  {
    if i < |after| {
      assert lines[p + i] == after[i];
      ClosedShifts(lines, p, after, i + 1, limit);
    }
  }

  lemma NoHitsBefore(lines: seq<string>, before: seq<string>, d: nat, key: string, hint: nat)
    requires before <= lines && |before| <= hint < |lines| && PlainKey(key)
    requires before == [] || exists k :: ParentAt(before, d, k)
    ensures Occurrences(lines, key, hint, d, 0) == Occurrences(lines, key, hint, d, |before|)
  {
    hide KindOf, IsKeyAt, PlainKey, ListLine;
    forall i | 0 <= i < |before| ensures !IsHit(lines, key, hint, d, i) {
      var k :| ParentAt(before, d, k);
      assert lines[i] == before[i] && lines[k] == before[k];
      if i <= k {
        ParentParts(lines, d, key, hint, i, k);
      } else {
        OtherLineIsNoKey(before[i], key, d);
      }
    }
    NoHits(lines, key, hint, d, 0, |before|);
  }

  lemma ParentParts(lines: seq<string>, d: nat, key: string, hint: nat, i: nat, k: nat)
    requires i <= k <= hint < |lines| && KindOf(lines[k]).Content? && KindOf(lines[k]).indent < d
    ensures !IsHit(lines, key, hint, d, i)
  {
    hide KindOf, IsKeyAt;
    assert Kinds(lines)[k] == KindOf(lines[k]);
  }

  lemma NoHitsAfter(lines: seq<string>, hi: nat, d: nat, key: string, hint: nat)
    requires hint < hi <= |lines| && PlainKey(key)
    requires Closed(Kinds(lines), hi, d - 1)
    ensures Occurrences(lines, key, hint, d, hi) == []
  {
    var ks := Kinds(lines);
    forall i | hi <= i < |lines| ensures !IsHit(lines, key, hint, d, i) {
      if IsKeyAt(lines[i], key, d) {
        KeyLineIsContent(lines[i], key);
        assert ks[i].Content?;
        var next := SkipNoise(ks, hi);
        assert hi <= next <= i;
      }
    }
    NoHits(lines, key, hint, d, hi, |lines|);
  }

  lemma HitsInDocument(before: seq<string>, items: seq<Item>, d: nat, after: seq<string>, key: string, hint: nat)
    requires WfItems(items, d) && PlainKey(key) && Encloses(before, d, after)
    requires |before| <= hint < |before| + |PrintItems(items, d)|
    ensures Occurrences(before + PrintItems(items, d) + after, key, hint, d, 0) == Starts(items, d, key, |before|)
  {
    hide *;
    var body := PrintItems(items, d);
    var lines := before + body + after;
    var lo, hi := |before|, |before| + |body|;
    AtMiddle(before, body, after);
    BodyInMapping(lines, items, d, lo);
    HitsInMapping(lines, items, d, key, hint, lo, lo, hi);
    ParentIfAny(before, d, after);
    NoHitsBefore(lines, before, d, key, hint);
    AfterIsClosed(before, body, d, after);
    NoHitsAfter(lines, hi, d, key, hint);
    assert Starts(items, d, key, lo) + [] == Starts(items, d, key, lo);
  }

  lemma BodyInMapping(lines: seq<string>, items: seq<Item>, d: nat, lo: nat)
    requires WfItems(items, d) && At(lines, lo, PrintItems(items, d))
    ensures InMapping(lines, d, lo, lo + |PrintItems(items, d)|)
  {
    hide KindOf, PrintItems, WfItems;
    var body := PrintItems(items, d);
    forall i | lo <= i < lo + |body| ensures KindOf(lines[i]).Noise? || KindOf(lines[i]).indent >= d {
      AtIndex(lines, lo, body, i);
      PrintedStaysIn(items, d, i - lo);
    }
  }

  lemma ParentIfAny(before: seq<string>, d: nat, after: seq<string>)
    requires Encloses(before, d, after)
    ensures before == [] || exists k :: ParentAt(before, d, k)
  {
  }

  lemma AfterIsClosed(before: seq<string>, body: seq<string>, d: nat, after: seq<string>)
    requires Encloses(before, d, after)
    ensures Closed(Kinds(before + body + after), |before| + |body|, d - 1)
  {
    hide KindOf, IsKeyAt, HeadLine, WfValue, PlainKey;
    var lines := before + body + after;
    var hi := |before| + |body|;
    assert lines[hi..] == after;
    ClosedShifts(lines, hi, after, 0, d - 1);
    var next := SkipNoise(Kinds(after), 0);
    assert next < |after| ==> lines[hi + next] == after[next];
  }

  lemma KeyLineIsContent(line: string, key: string)
    requires PlainKey(key) && IsKeyLine(line, key)
    ensures !IsNoise(line)
  {
    assert TrimStart(line)[0] == key[0];
  }

  // ----- what the copying loop leaves

  ghost predicate RangesOk(lines: seq<string>, ranges: seq<Range>) {
    forall r :: r in ranges ==> r.start < r.end <= |lines|
  }

  lemma {:induction false} SpliceCopy(lines: seq<string>, ranges: seq<Range>, p: nat, q: nat)
    requires p <= q <= |lines| && RangesOk(lines, ranges)
    requires ranges == [] || q <= ranges[0].start
    ensures Splice(lines, ranges, p) == lines[p..q] + Splice(lines, ranges, q)
    decreases q - p
  {
    hide Splice;
    if p < q {
      SpliceCopy(lines, ranges, p + 1, q);
      SpliceOne(lines, ranges, p);
      assert lines[p..q] == [lines[p]] + lines[p + 1..q];
    } else {
      assert lines[p..q] == [];
    }
  }

  lemma SpliceOne(lines: seq<string>, ranges: seq<Range>, p: nat)
    requires p < |lines| && RangesOk(lines, ranges)
    requires ranges == [] || p < ranges[0].start
    ensures Splice(lines, ranges, p) == [lines[p]] + Splice(lines, ranges, p + 1)
  {
  }

  lemma DropRangesOk(lines: seq<string>, occ: seq<nat>, d: nat)
    requires forall i :: 0 <= i < |occ| ==> occ[i] < |lines|
    ensures RangesOk(lines, DropRanges(Kinds(lines), occ, d))
  {
    var ranges := DropRanges(Kinds(lines), occ, d);
    forall r | r in ranges ensures r.start < r.end <= |lines| {
      var i :| 0 <= i < |ranges| && ranges[i] == r;
    }
  }

  /** `Splice` with the ranges of the given occurrences. */
  function Cut(lines: seq<string>, occ: seq<nat>, d: nat, p: nat): seq<string>
    requires p <= |lines| && forall i :: 0 <= i < |occ| ==> occ[i] < |lines|
  {
    DropRangesOk(lines, occ, d);
    Splice(lines, DropRanges(Kinds(lines), occ, d), p)
  }

  lemma CutCopy(lines: seq<string>, occ: seq<nat>, d: nat, p: nat, q: nat)
    requires p <= q <= |lines| && forall i :: 0 <= i < |occ| ==> q <= occ[i] < |lines|
    ensures Cut(lines, occ, d, p) == lines[p..q] + Cut(lines, occ, d, q)
  {
    DropRangesOk(lines, occ, d);
    SpliceCopy(lines, DropRanges(Kinds(lines), occ, d), p, q);
  }

  lemma CutDrop(lines: seq<string>, occ: seq<nat>, d: nat)
    requires |occ| >= 2 && forall i :: 0 <= i < |occ| ==> occ[i] < |lines|
    ensures Cut(lines, occ, d, occ[0]) == Cut(lines, occ[1..], d, BlockEnd(Kinds(lines), occ[0], d))
  {
  }

  lemma {:induction false} CutMapping(lines: seq<string>, items: seq<Item>, d: nat, key: string, p: nat)
    requires WfItems(items, d) && At(lines, p, PrintItems(items, d))
    requires Closed(Kinds(lines), p + |PrintItems(items, d)|, d)
    ensures Cut(lines, Starts(items, d, key, p), d, p)
         == EditedLines(items, d, key) + lines[p + |PrintItems(items, d)|..]
    decreases items
  {
    hide *;
    AtFits(lines, p, PrintItems(items, d));
    if items == [] {
      NothingPrinted(d, key, p);
      CutCopy(lines, [], d, p, |lines|);
      CutNothing(lines, d);
      assert lines[p..|lines|] + [] == [] + lines[p..];
    } else {
      var q := p + |PrintItem(items[0], d)|;
      WfUnfold(items, d);
      PrintUnfold(items, d, key, p);
      AtSplit(lines, p, PrintItem(items[0], d), PrintItems(items[1..], d));
      CutMapping(lines, items[1..], d, key, q);
      PrintedKeepsClosed(lines, items[1..], d, q);
      if items[0].Entry? && items[0].key == key {
        CutHit(lines, items, d, key, p);
      } else {
        CutMiss(lines, items, d, key, p);
      }
    }
  }

  lemma CutHit(lines: seq<string>, items: seq<Item>, d: nat, key: string, p: nat)
    requires items != [] && items[0].Entry? && items[0].key == key && WfItem(items[0], d)
    requires At(lines, p, PrintItem(items[0], d)) && Closed(Kinds(lines), p + |PrintItem(items[0], d)|, d)
    requires var q := p + |PrintItem(items[0], d)|;
             && At(lines, q, PrintItems(items[1..], d)) && q + |PrintItems(items[1..], d)| <= |lines|
             && Cut(lines, Starts(items[1..], d, key, q), d, q)
                == EditedLines(items[1..], d, key) + lines[q + |PrintItems(items[1..], d)|..]
    ensures p + |PrintItems(items, d)| <= |lines|
    ensures Cut(lines, Starts(items, d, key, p), d, p)
         == EditedLines(items, d, key) + lines[p + |PrintItems(items, d)|..]
  {
    hide *;
    var first, rest := PrintItem(items[0], d), items[1..];
    var q := p + |first|;
    var more := Starts(rest, d, key, q);
    PrintUnfold(items, d, key, p);
    AtFits(lines, p, first);
    EntryUnfold(items[0], d);
    AtSplit(lines, p, [HeadLine(d, key, items[0].value)], PrintTail(items[0].value));
    CutEntry(lines, items[0].value, d, p, more);
    var kept := if more == [] then first else if items[0].value.List? then items[0].value.lines else [];
    Regroup3(kept, EditedLines(rest, d, key), lines[q + |PrintItems(rest, d)|..]);
  }

  lemma CutMiss(lines: seq<string>, items: seq<Item>, d: nat, key: string, p: nat)
    requires items != [] && !(items[0].Entry? && items[0].key == key)
    requires At(lines, p, PrintItem(items[0], d))
    requires var q := p + |PrintItem(items[0], d)|;
             && q + |PrintItems(items[1..], d)| <= |lines|
             && Cut(lines, Starts(items[1..], d, key, q), d, q)
                == EditedLines(items[1..], d, key) + lines[q + |PrintItems(items[1..], d)|..]
    ensures p + |PrintItems(items, d)| <= |lines|
    ensures Cut(lines, Starts(items, d, key, p), d, p)
         == EditedLines(items, d, key) + lines[p + |PrintItems(items, d)|..]
  {
    hide *;
    var first, rest := PrintItem(items[0], d), items[1..];
    var q := p + |first|;
    PrintUnfold(items, d, key, p);
    AtFits(lines, p, first);
    CutCopy(lines, Starts(rest, d, key, q), d, p, q);
    Regroup3(first, EditedLines(rest, d, key), lines[q + |PrintItems(rest, d)|..]);
  }

  lemma Regroup3(a: seq<string>, b: seq<string>, c: seq<string>)
    ensures a + (b + c) == (a + b) + c
  {
  }

  lemma NothingPrinted(d: nat, key: string, p: nat)
    ensures PrintItems([], d) == [] && Starts([], d, key, p) == [] && EditedLines([], d, key) == []
  {
  }

  /** One item printed, counted and edited. */
  lemma PrintUnfold(items: seq<Item>, d: nat, key: string, p: nat)
    requires items != []
    ensures var first, rest := PrintItem(items[0], d), items[1..];
            var more := Starts(rest, d, key, p + |first|);
            var hit := items[0].Entry? && items[0].key == key;
            && PrintItems(items, d) == first + PrintItems(rest, d)
            && Starts(items, d, key, p) == (if hit then [p] + more else more)
            && (more == [] <==> Count(rest, key) == 0)
            && EditedLines(items, d, key)
               == (if !hit || more == [] then first
                   else if items[0].value.List? then items[0].value.lines else []) + EditedLines(rest, d, key)
  {
    hide PrintItem, Count;
    var more := Starts(items[1..], d, key, p + |PrintItem(items[0], d)|);
    assert [] + more == more;
  }

  lemma EntryUnfold(item: Item, d: nat)
    requires item.Entry? && WfItem(item, d)
    ensures PrintItem(item, d) == [HeadLine(d, item.key, item.value)] + PrintTail(item.value)
    ensures WfValue(item.value, d)
  {
    hide HeadLine, WfValue, PrintTail;
  }

  lemma AtFits(lines: seq<string>, p: nat, block: seq<string>)
    requires At(lines, p, block)
    ensures p + |block| <= |lines| && lines[p..p + |block|] == block
  {
  }

  lemma CutNothing(lines: seq<string>, d: nat)
    ensures Cut(lines, [], d, |lines|) == []
  {
  }

  /** An entry of the key: kept when it is the last, else cut down to its list, if it has one. */
  lemma CutEntry(lines: seq<string>, value: Value, d: nat, p: nat, more: seq<nat>)
    requires WfValue(value, d) && p < |lines| && At(lines, p + 1, PrintTail(value))
    requires Closed(Kinds(lines), p + 1 + |PrintTail(value)|, d)
    requires forall i :: 0 <= i < |more| ==> p + 1 + |PrintTail(value)| <= more[i] < |lines|
    ensures var q := p + 1 + |PrintTail(value)|;
            Cut(lines, [p] + more, d, p)
            == (if more == [] then lines[p..q] else if value.List? then value.lines else [])
               + Cut(lines, more, d, q)
  {
    hide KindOf, HeadLine, WfValue, Closed, Cut;
    var q := p + 1 + |PrintTail(value)|;
    if more == [] {
      assert [p] + more == [p];
      CutOnly(lines, d, p);
      CutCopy(lines, more, d, p, q);
    } else {
      CutDrop(lines, [p] + more, d);
      assert ([p] + more)[1..] == more;
      BlockOfEntry(lines, "", value, d, p);
      var end := BlockEnd(Kinds(lines), p, d);
      CutCopy(lines, more, d, end, q);
    }
  }

  lemma CutOnly(lines: seq<string>, d: nat, p: nat)
    requires p < |lines|
    ensures Cut(lines, [p], d, p) == Cut(lines, [], d, p)
  {
  }

  // ----- the edit in a document

  /** The hint stands on a direct entry of the key. */
  lemma {:induction false} StartsAreKeyLines(lines: seq<string>, items: seq<Item>, d: nat, key: string, p: nat, i: nat)
    requires WfItems(items, d) && PlainKey(key) && At(lines, p, PrintItems(items, d))
    requires i in Starts(items, d, key, p)
    ensures p <= i < p + |PrintItems(items, d)| && IsKeyAt(lines[i], key, d)
    decreases items
  {
    hide WfItems, WfValue, KindOf, IsKeyAt, PlainKey, HeadLine, At;
    var first := PrintItem(items[0], d);
    WfUnfold(items, d);
    AtSplit(lines, p, first, PrintItems(items[1..], d));
    if i in Starts(items[1..], d, key, p + |first|) {
      StartsAreKeyLines(lines, items[1..], d, key, p + |first|, i);
    } else {
      AtIndex(lines, p, first, p);
      HeadLineFacts(d, key, items[0].value, key);
    }
  }

  lemma NearestIsHint(lines: seq<string>, key: string, hint: nat)
    requires hint < |lines| && IsKeyLine(lines[hint], key)
    ensures NearestKeyLine(lines, key, hint, |lines|) == Some(hint)
  {
    hide IsKeyLine, NearestKeyLine;
    NearestIsNearest(lines, key, hint, |lines|);
  }

  lemma RemoveIsCut(lines: seq<string>, key: string, hint: nat, d: nat, occ: seq<nat>)
    requires hint < |lines| && IsKeyAt(lines[hint], key, d)
    requires occ == Occurrences(lines, key, hint, d, 0)
    ensures Remove(lines, key, hint) == if |occ| < 2 then None else Some(Cut(lines, occ, d, 0))
  {
    hide Occurrences, Splice, IsKeyLine;
    NearestIsHint(lines, key, hint);
  }

  lemma {:induction false} CutDocument(before: seq<string>, items: seq<Item>, d: nat, after: seq<string>, key: string)
    requires WfItems(items, d) && Encloses(before, d, after)
    ensures var lines := before + PrintItems(items, d) + after;
            Cut(lines, Starts(items, d, key, |before|), d, 0) == before + EditedLines(items, d, key) + after
  {
    hide *;
    var body := PrintItems(items, d);
    var lines := before + body + after;
    var p := |before|;
    AtMiddle(before, body, after);
    AfterIsClosed(before, body, d, after);
    ClosedWeakens(Kinds(lines), p + |body|, d);
    CutMapping(lines, items, d, key, p);
    CutCopy(lines, Starts(items, d, key, p), d, 0, p);
  }

  lemma AtMiddle(a: seq<string>, b: seq<string>, c: seq<string>)
    ensures At(a + b + c, |a|, b)
    ensures (a + b + c)[0..|a|] == a && (a + b + c)[|a| + |b|..] == c
  {
  }

  lemma ClosedWeakens(ks: seq<Kind>, from: nat, limit: int)
    requires from <= |ks| && Closed(ks, from, limit - 1)
    ensures Closed(ks, from, limit)
  {
  }

  /** The editor on a mapping anywhere in a document: lines before and after it stay, and of the
      mapping remain exactly the edited lines. With a single entry there is nothing to do. */
  lemma {:induction false} RemoveInMapping(before: seq<string>, items: seq<Item>, d: nat, after: seq<string>,
                                           key: string, hint: nat)
    requires WfItems(items, d) && PlainKey(key) && Encloses(before, d, after)
    requires hint in Starts(items, d, key, |before|)
    ensures Remove(before + PrintItems(items, d) + after, key, hint)
         == if Count(items, key) < 2 then None else Some(before + EditedLines(items, d, key) + after)
  {
    hide WfItems, PlainKey, Occurrences, EditedLines, PrintItems, Encloses, Cut, Remove, IsKeyAt;
    var body := PrintItems(items, d);
    var lines := before + body + after;
    assert At(lines, |before|, body);
    StartsAreKeyLines(lines, items, d, key, |before|, hint);
    HitsInDocument(before, items, d, after, key, hint);
    RemoveIsCut(lines, key, hint, d, Starts(items, d, key, |before|));
    CutDocument(before, items, d, after, key);
  }

  // ----- where the items of a dropped list go

  lemma {:induction false} CountAppend(a: seq<Item>, b: seq<Item>, key: string)
    ensures Count(a + b, key) == Count(a, key) + Count(b, key)
  {
    if a == [] {
      assert a + b == b;
    } else {
      assert (a + b)[1..] == a[1..] + b;
      CountAppend(a[1..], b, key);
    }
  }

  /** An entry without a value, and the entry behind it with a list. */
  function Apart(b: string, a: string, list: seq<string>): seq<Item> {
    [Entry(b, Leaf("", [])), Entry(a, List(list))]
  }

  lemma EditedCons(item: Item, rest: seq<Item>, d: nat, key: string)
    ensures EditedLines([item] + rest, d, key)
         == (if item.Entry? && item.key == key && Count(rest, key) > 0 then
               if item.value.List? then item.value.lines else []
             else PrintItem(item, d))
            + EditedLines(rest, d, key)
  {
    hide Count, PrintItem;
    assert ([item] + rest)[1..] == rest;
  }

  lemma {:induction false} EditedAdopts(pre: seq<Item>, b: string, a: string, list: seq<string>, post: seq<Item>,
                                        d: nat)
    requires a != b && Count(post, a) > 0
    ensures EditedLines(pre + (Apart(b, a, list) + post), d, a)
         == EditedLines(pre + ([Entry(b, List(list))] + post), d, a)
  {
    hide *;
    var from, to := Apart(b, a, list) + post, [Entry(b, List(list))] + post;
    if pre == [] {
      AdoptHere(b, a, list, post, d);
      assert pre + from == from && pre + to == to;
    } else {
      var x, more := pre[0], pre[1..];
      EditedAdopts(more, b, a, list, post, d);
      assert pre + from == [x] + (more + from) && pre + to == [x] + (more + to);
      EditedCons(x, more + from, d, a);
      EditedCons(x, more + to, d, a);
      CountAppend(more + Apart(b, a, list), post, a);
      CountAppend(more + [Entry(b, List(list))], post, a);
      assert more + from == more + Apart(b, a, list) + post;
      assert more + to == more + [Entry(b, List(list))] + post;
    }
  }

  lemma AdoptHere(b: string, a: string, list: seq<string>, post: seq<Item>, d: nat)
    requires a != b && Count(post, a) > 0
    ensures EditedLines(Apart(b, a, list) + post, d, a) == EditedLines([Entry(b, List(list))] + post, d, a)
  {
    hide HeadLine, Count, EditedLines;
    var x, y, z := Entry(b, Leaf("", [])), Entry(a, List(list)), Entry(b, List(list));
    assert Apart(b, a, list) + post == [x] + ([y] + post);
    EditedCons(x, [y] + post, d, a);
    EditedCons(y, post, d, a);
    EditedCons(z, post, d, a);
    EmptyHead(d, b, list);
    var rest := EditedLines(post, d, a);
    assert [HeadLine(d, b, z.value)] + (list + rest) == [HeadLine(d, b, z.value)] + list + rest;
    assert [HeadLine(d, b, x.value)] + [] == [HeadLine(d, b, x.value)];
  }

  lemma EmptyHead(d: nat, b: string, list: seq<string>)
    ensures HeadLine(d, b, Leaf("", [])) == HeadLine(d, b, List(list))
  {
  }

  lemma CountOfApart(b: string, a: string, list: seq<string>)
    ensures Count(Apart(b, a, list), a) >= 1
  {
    assert Apart(b, a, list)[1..][0] == Entry(a, List(list));
  }

  lemma AdoptedIsWf(pre: seq<Item>, b: string, a: string, list: seq<string>, post: seq<Item>, d: nat)
    requires WfItems(pre + (Apart(b, a, list) + post), d)
    ensures WfItems(pre + ([Entry(b, List(list))] + post), d)
  {
    hide WfItem;
    var from, to := pre + (Apart(b, a, list) + post), pre + ([Entry(b, List(list))] + post);
    assert from[|pre|] == Entry(b, Leaf("", [])) && from[|pre| + 1] == Entry(a, List(list));
    AdoptedEntryIsWf(b, a, list, d);
    forall i | 0 <= i < |to| ensures WfItem(to[i], d) {
      assert i < |pre| ==> to[i] == from[i];
      assert i > |pre| ==> to[i] == from[i + 1];
    }
  }

  lemma AdoptedEntryIsWf(b: string, a: string, list: seq<string>, d: nat)
    requires WfItem(Entry(b, Leaf("", [])), d) && WfItem(Entry(a, List(list)), d)
    ensures WfItem(Entry(b, List(list)), d)
  {
    assert WfValue(List(list), d);
  }

  /** The items a dropped list leaves behind become the value of an entry right before it that has
      none: dropping the earlier `a` gives, line by line, the well-formed mapping in which `b` has
      taken the list over, edited. */
  lemma {:induction false} StrayItemsAreAdopted(before: seq<string>, pre: seq<Item>, b: string, a: string,
                                                list: seq<string>, post: seq<Item>, d: nat, after: seq<string>,
                                                hint: nat)
    requires a != b && Count(post, a) > 0
    requires var items := pre + (Apart(b, a, list) + post);
             && WfItems(items, d) && PlainKey(a) && Encloses(before, d, after)
             && hint in Starts(items, d, a, |before|)
    ensures var items, adopted := pre + (Apart(b, a, list) + post), pre + ([Entry(b, List(list))] + post);
            && WfItems(adopted, d)
            && Remove(before + PrintItems(items, d) + after, a, hint)
               == Some(before + EditedLines(adopted, d, a) + after)
            && (!DropsList(adopted, a) ==> EditedLines(adopted, d, a) == PrintItems(KeepLast(adopted, a), d))
  {
    hide WfItems, PlainKey, Encloses, Starts, PrintItems, EditedLines, Remove, DropsList, KeepLast;
    var items := pre + (Apart(b, a, list) + post);
    AdoptedIsWf(pre, b, a, list, post, d);
    CountAppend(pre + Apart(b, a, list), post, a);
    CountAppend(pre, Apart(b, a, list), a);
    assert items == pre + Apart(b, a, list) + post;
    CountOfApart(b, a, list);
    RemoveInMapping(before, items, d, after, a, hint);
    EditedAdopts(pre, b, a, list, post, d);
    EditedLinesVsKeepLast(pre + ([Entry(b, List(list))] + post), d, a);
  }

  // ----- nested mappings

  /** A path names a nested mapping by the positions of the entries that lead to it. */
  predicate IsPath(items: seq<Item>, path: seq<nat>) {
    path == []
    || (path[0] < |items| && items[path[0]].Entry? && items[path[0]].value.Map?
        && IsPath(items[path[0]].value.items, path[1..]))
  }

  datatype Place = Place(items: seq<Item>, indent: nat, line: nat)

  /** The mapping a path leads to, with its indent and the line it starts on. */
  function Target(items: seq<Item>, d: nat, p: nat, path: seq<nat>): Place
    requires IsPath(items, path)
  {
    if path == [] then Place(items, d, p)
    else
      var v := items[path[0]].value;
      Target(v.items, v.indent, p + |PrintItems(items[..path[0]], d)| + 1, path[1..])
  }

  /** `KeepLast` in the mapping at the path; everything else is untouched. */
  function KeepLastAt(items: seq<Item>, path: seq<nat>, key: string): seq<Item>
    requires IsPath(items, path)
  {
    if path == [] then KeepLast(items, key)
    else
      var e := items[path[0]];
      items[path[0] := e.(value := e.value.(items := KeepLastAt(e.value.items, path[1..], key)))]
  }

  lemma {:induction false} PrintAppend(a: seq<Item>, b: seq<Item>, d: nat)
    ensures PrintItems(a + b, d) == PrintItems(a, d) + PrintItems(b, d)
  {
    if a == [] {
      assert a + b == b;
    } else {
      assert (a + b)[1..] == a[1..] + b;
      PrintAppend(a[1..], b, d);
    }
  }

  /** The lines around an entry, and around what is nested in it. */
  lemma PrintAround(items: seq<Item>, i: nat, d: nat)
    requires i < |items| && items[i].Entry?
    ensures PrintItems(items, d)
         == PrintItems(items[..i], d) + [HeadLine(d, items[i].key, items[i].value)]
            + PrintTail(items[i].value) + PrintItems(items[i + 1..], d)
  {
    hide HeadLine;
    assert items == items[..i] + items[i..];
    PrintAppend(items[..i], items[i..], d);
    assert items[i..][1..] == items[i + 1..];
  }

  lemma WfSlices(items: seq<Item>, d: nat, i: nat)
    requires i < |items| && WfItems(items, d)
    ensures WfItems(items[..i], d) && WfItem(items[i], d) && WfItems(items[i + 1..], d)
  {
  }

  lemma RestIsClosed(items: seq<Item>, d: nat, after: seq<string>)
    requires WfItems(items, d) && Closed(Kinds(after), 0, d - 1)
    ensures Closed(Kinds(PrintItems(items, d) + after), 0, d)
  {
    hide *;
    var rest := PrintItems(items, d);
    AtMiddle([], rest, after);
    assert [] + rest + after == rest + after;
    assert Encloses([], d, after) by { EnclosesNothing(d, after); }
    AfterIsClosed([], rest, d, after);
    ClosedWeakens(Kinds(rest + after), |rest|, d);
    PrintedKeepsClosed(rest + after, items, d, 0);
  }

  lemma EnclosesNothing(d: nat, after: seq<string>)
    requires Closed(Kinds(after), 0, d - 1)
    ensures Encloses([], d, after)
  {
  }

  lemma ClosedBelow(ks: seq<Kind>, limit: int, more: int)
    requires Closed(ks, 0, limit) && limit <= more
    ensures Closed(ks, 0, more)
  {
  }

  lemma ParentLine(before: seq<string>, line: string, d: nat)
    requires KindOf(line).Content? && KindOf(line).indent < d
    ensures ParentAt(before + [line], d, |before|)
  {
    hide KindOf;
  }

  /** What encloses a mapping, with the lines around an entry, encloses what is nested in it. */
  lemma NestedIsEnclosed(before: seq<string>, items: seq<Item>, d: nat, after: seq<string>, i: nat)
    requires i < |items| && items[i].Entry? && items[i].value.Map?
    requires WfItems(items, d) && Encloses(before, d, after)
    ensures Encloses(before + PrintItems(items[..i], d) + [HeadLine(d, items[i].key, items[i].value)],
                     items[i].value.indent,
                     PrintItems(items[i + 1..], d) + after)
  {
    hide HeadLine, PrintItems, PlainKey, KindOf, WfItems, At, Closed;
    WfSlices(items, d, i);
    HeadLineFacts(d, items[i].key, items[i].value, items[i].key);
    ParentLine(before + PrintItems(items[..i], d), HeadLine(d, items[i].key, items[i].value), items[i].value.indent);
    var rest := PrintItems(items[i + 1..], d);
    RestIsClosed(items[i + 1..], d, after);
    ClosedBelow(Kinds(rest + after), d, items[i].value.indent - 1);
  }

  /** Duplicate repair, for every nested mapping of every well-formed tree and every hint on a
      duplicate: the result is the print of the tree in which the mapping keeps the last entry
      of the key, exactly when none of the dropped entries holds a list at its own indent. */
  lemma {:induction false} RepairIsLastWins(before: seq<string>, items: seq<Item>, d: nat, after: seq<string>,
                                            path: seq<nat>, key: string, hint: nat)
    requires WfItems(items, d) && PlainKey(key) && Encloses(before, d, after) && IsPath(items, path)
    requires var t := Target(items, d, |before|, path);
             hint in Starts(t.items, t.indent, key, t.line) && Count(t.items, key) >= 2
    ensures Remove(before + PrintItems(items, d) + after, key, hint)
            == Some(before + PrintItems(KeepLastAt(items, path, key), d) + after)
         <==> !DropsList(Target(items, d, |before|, path).items, key)
    decreases path
  {
    hide WfItems, PlainKey, Encloses, PrintItems, EditedLines, Starts, HeadLine, Remove;
    if path == [] {
      RemoveInMapping(before, items, d, after, key, hint);
      EditedLinesVsKeepLast(items, d, key);
      assert |before + EditedLines(items, d, key) + after| == |before| + |EditedLines(items, d, key)| + |after|;
    } else {
      var i := path[0];
      var e := items[i];
      var sub := KeepLastAt(e.value.items, path[1..], key);
      var head := PrintItems(items[..i], d) + [HeadLine(d, e.key, e.value)];
      var rest := PrintItems(items[i + 1..], d);
      NestedIsEnclosed(before, items, d, after, i);
      WfSlices(items, d, i);
      PrintAround(items, i, d);
      assert before + head == before + PrintItems(items[..i], d) + [HeadLine(d, e.key, e.value)];
      RepairIsLastWins(before + head, e.value.items, e.value.indent, rest + after, path[1..], key, hint);
      var edited := KeepLastAt(items, path, key);
      PrintAround(edited, i, d);
      SameHead(d, e.key, e.value, edited[i].value);
      assert edited[..i] == items[..i] && edited[i + 1..] == items[i + 1..];
      Regroup(before, head, PrintTail(e.value), rest, after);
      Regroup(before, head, PrintTail(edited[i].value), rest, after);
    }
  }

  lemma SameHead(d: nat, key: string, a: Value, b: Value)
    requires a.Map? && b.Map?
    ensures HeadLine(d, key, a) == HeadLine(d, key, b)
  {
  }

  lemma Regroup(a: seq<string>, b: seq<string>, c: seq<string>, d: seq<string>, e: seq<string>)
    ensures (a + b) + c + (d + e) == a + (b + c + d) + e
  {
  }
}
