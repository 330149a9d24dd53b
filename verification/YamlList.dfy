/** Lists of mappings: the first entry of an element stands on the line of its dash, and there the
    duplicate repair does not see it. */
module YamlList {
  import opened Text
  import opened YamlRepair
  import opened YamlTree

  /** An element of a list, its entries aligned at `indent`. */
  datatype Element = Element(indent: nat, items: seq<Item>)

  // ----- printing

  /** The line of the first entry, with the dash at `d` instead of a blank. */
  function DashHead(d: nat, e: nat, key: string, value: Value): string {
    Blanks(d) + "-" + HeadLine(if e > d then e - d - 1 else 0, key, value)
  }

  function PrintElement(x: Element, d: nat): (r: seq<string>)
    ensures |r| == |PrintItems(x.items, x.indent)|
  {
    if x.items != [] && x.items[0].Entry? then
      [DashHead(d, x.indent, x.items[0].key, x.items[0].value)] + PrintTail(x.items[0].value)
      + PrintItems(x.items[1..], x.indent)
    else PrintItems(x.items, x.indent)
  }

  function PrintElements(xs: seq<Element>, d: nat): seq<string> {
    if xs == [] then [] else PrintElement(xs[0], d) + PrintElements(xs[1..], d)
  }

  /** The dash is followed by a blank, and by an entry. */
  ghost predicate WfElement(x: Element, d: nat) {
    x.indent >= d + 2 && WfItems(x.items, x.indent) && x.items != [] && x.items[0].Entry?
  }

  ghost predicate WfElements(xs: seq<Element>, d: nat) { forall i :: 0 <= i < |xs| ==> WfElement(xs[i], d) }

  // ----- the line of a dash

  lemma DashLineFacts(d: nat, e: nat, key: string, value: Value)
    requires e >= d + 2
    ensures KindOf(DashHead(d, e, key, value)) == Content(d)
  {
    hide HeadLine;
    var rest := "-" + HeadLine(e - d - 1, key, value);
    assert DashHead(d, e, key, value) == Blanks(d) + rest && rest[0] == '-';
    DashIsContent(d, rest);
  }

  lemma DashIsContent(d: nat, rest: string)
    requires rest != "" && rest[0] == '-'
    ensures KindOf(Blanks(d) + rest) == Content(d)
  {
    IndentOfPadded(d, rest);
    BlanksAreWhite(d);
    TrimLeftPadded(Blanks(d), rest, WHITESPACE);
  }

  // ----- what stands around the entries of an element

  /** Lines after a list at `d`: past noise, nothing or a line that is not deeper. */
  ghost predicate EndsList(after: seq<string>, d: nat) { Closed(Kinds(after), 0, d) }

  lemma MoreElementsEndIt(xs: seq<Element>, d: nat, after: seq<string>)
    requires WfElements(xs, d) && EndsList(after, d)
    ensures EndsList(PrintElements(xs, d) + after, d)
  {
    hide DashHead, KindOf, WfItems, PrintItems;
    if xs == [] {
      assert [] + after == after;
    } else {
      var x := xs[0];
      assert WfElement(x, d);
      var lines := PrintElements(xs, d) + after;
      assert lines[0] == DashHead(d, x.indent, x.items[0].key, x.items[0].value);
      DashLineFacts(d, x.indent, x.items[0].key, x.items[0].value);
      FirstIsContent(lines, d);
    }
  }

  lemma FirstIsContent(lines: seq<string>, d: nat)
    requires lines != [] && KindOf(lines[0]) == Content(d)
    ensures EndsList(lines, d)
  {
    hide KindOf;
    assert Kinds(lines)[0] == Content(d);
  }

  lemma ElementIs(x: Element, d: nat)
    requires WfElement(x, d)
    ensures x.items != [] && x.items[0].Entry?
    ensures PrintElement(x, d) == Front(x, d) + PrintItems(x.items[1..], x.indent)
    ensures WfItem(x.items[0], x.indent) && WfItems(x.items[1..], x.indent)
    ensures PlainKey(x.items[0].key) && WfValue(x.items[0].value, x.indent)
    ensures |Front(x, d)| == |PrintItem(x.items[0], x.indent)| && Front(x, d) != []
  {
    hide DashHead, HeadLine, PrintItems, WfValue, PlainKey;
    assert WfItem(x.items[0], x.indent);
  }

  /** The lines of the first entry. */
  function Front(x: Element, d: nat): seq<string> {
    if x.items != [] && x.items[0].Entry? then
      [DashHead(d, x.indent, x.items[0].key, x.items[0].value)] + PrintTail(x.items[0].value)
    else []
  }

  lemma FrontEncloses(before: seq<string>, x: Element, d: nat, after: seq<string>)
    requires WfElement(x, d) && EndsList(after, d)
    ensures Encloses(before + Front(x, d), x.indent, after)
  {
    hide DashHead, KindOf, WfItems, WfItem, PrintItems, WfValue, PrintTail, ListLine;
    var e, v := x.indent, x.items[0].value;
    ElementIs(x, d);
    DashLineFacts(d, e, x.items[0].key, v);
    var lines := before + Front(x, d);
    forall i | |before| < i < |lines| ensures ListLine(lines[i], e) {
      TailIsListLine(v, e, i - |before| - 1);
      assert lines[i] == PrintTail(v)[i - |before| - 1];
    }
    assert lines[|before|] == DashHead(d, e, x.items[0].key, v);
    assert ParentAt(lines, e, |before|);
    ClosedBelow(Kinds(after), d, e - 1);
  }

  lemma TailIsListLine(value: Value, d: nat, i: nat)
    requires WfValue(value, d) && i < |PrintTail(value)|
    ensures ListLine(PrintTail(value)[i], d)
  {
    if value.List? {
      assert ListLine(value.lines[i], d);
    } else {
      TailStaysIn(value, d, i);
    }
  }

  // ----- the repair in one element

  /** A hint in the mapping of the element itself: the first entry is not seen. */
  lemma {:induction false} RepairHere(before: seq<string>, x: Element, d: nat, after: seq<string>, key: string,
                                      hint: nat)
    requires WfElement(x, d) && EndsList(after, d) && PlainKey(key)
    requires hint in Starts(x.items, x.indent, key, |before|) && Count(x.items, key) >= 2 && hint != |before|
    ensures Remove(before + PrintElement(x, d) + after, key, hint)
            == Some(before + PrintElement(x.(items := KeepLast(x.items, key)), d) + after)
       <==> x.items[0].key != key && !DropsList(x.items, key)
  {
    hide *;
    ElementIs(x, d);
    var e, rest, out := x.indent, x.items[1..], x.(items := KeepLast(x.items, key));
    var front := before + Front(x, d);
    FirstUnfolds(x.items, e, key, |before|);
    FrontEncloses(before, x, d, after);
    RemoveInMapping(front, rest, e, after, key, hint);
    assert before + (Front(x, d) + PrintItems(rest, e)) + after == front + PrintItems(rest, e) + after;
    EditedLinesVsKeepLast(rest, e, key);
    assert |before + PrintElement(out, d) + after| == |before| + |PrintItems(out.items, e)| + |after|;
    var edited := EditedLines(rest, e, key);
    assert |front + edited + after| == |before| + |Front(x, d)| + |edited| + |after|;
    if x.items[0].key != key {
      KeptFront(x, d, key);
      var kept := PrintItems(KeepLast(rest, key), e);
      assert before + (Front(x, d) + kept) + after == front + kept + after;
    }
  }

  lemma FirstUnfolds(items: seq<Item>, e: nat, key: string, p: nat)
    requires items != [] && items[0].Entry?
    ensures var rest := items[1..];
            && Starts(items, e, key, p)
               == (if items[0].key == key then [p] else []) + Starts(rest, e, key, p + |PrintItem(items[0], e)|)
            && Count(items, key) == (if items[0].key == key then 1 else 0) + Count(rest, key)
            && (items[0].key == key && Count(rest, key) > 0 ==> KeepLast(items, key) == KeepLast(rest, key))
            && (items[0].key != key ==> KeepLast(items, key) == [items[0]] + KeepLast(rest, key))
            && (items[0].key != key ==> (DropsList(items, key) <==> DropsList(rest, key)))
  {
    hide PrintItem;
  }

  lemma KeptFront(x: Element, d: nat, key: string)
    requires WfElement(x, d) && x.items[0].key != key
    ensures PrintElement(x.(items := KeepLast(x.items, key)), d)
         == Front(x, d) + PrintItems(KeepLast(x.items[1..], key), x.indent)
    ensures |PrintItems(KeepLast(x.items, key), x.indent)|
         == |Front(x, d)| + |PrintItems(KeepLast(x.items[1..], key), x.indent)|
  {
    hide DashHead, PrintTail, PrintItems, WfItems;
    var rest := KeepLast(x.items[1..], key);
    assert KeepLast(x.items, key) == [x.items[0]] + rest && ([x.items[0]] + rest)[1..] == rest;
    assert |PrintElement(x.(items := KeepLast(x.items, key)), d)| == |PrintItems(KeepLast(x.items, key), x.indent)|;
  }

  /** A hint in what is nested in the first entry. */
  lemma {:induction false} RepairInFirst(before: seq<string>, x: Element, d: nat, after: seq<string>,
                                         path: seq<nat>, key: string, hint: nat)
    requires WfElement(x, d) && EndsList(after, d) && PlainKey(key)
    requires path != [] && path[0] == 0 && IsPath(x.items, path)
    requires var t := Target(x.items, x.indent, |before|, path);
             hint in Starts(t.items, t.indent, key, t.line) && Count(t.items, key) >= 2
    ensures Remove(before + PrintElement(x, d) + after, key, hint)
            == Some(before + PrintElement(x.(items := KeepLastAt(x.items, path, key)), d) + after)
       <==> !DropsList(Target(x.items, x.indent, |before|, path).items, key)
  {
    hide DashHead, HeadLine, PrintItems, WfItem, WfItems, WfValue, PlainKey, Encloses, Starts, Count, DropsList,
      Remove, Kinds, EndsList;
    var e, v, rest := x.indent, x.items[0].value, PrintItems(x.items[1..], x.indent);
    ElementIs(x, d);
    var head := [DashHead(d, e, x.items[0].key, v)];
    FirstPath(x.items, e, |before|, path, key);
    MapIsWf(v, e);
    InFirstEncloses(before, x, d, after);
    RepairIsLastWins(before + head, v.items, v.indent, rest + after, path[1..], key, hint);
    var edited := KeepLastAt(v.items, path[1..], key);
    DashHeadOfMap(d, e, x.items[0].key, v, Map(v.indent, edited));
    Regroup(before, head, PrintItems(v.items, v.indent), rest, after);
    Regroup(before, head, PrintItems(edited, v.indent), rest, after);
  }

  lemma MapIsWf(v: Value, d: nat)
    requires WfValue(v, d) && v.Map?
    ensures WfItems(v.items, v.indent) && v.indent > d
  {
  }

  lemma DashHeadOfMap(d: nat, e: nat, key: string, v: Value, w: Value)
    requires v.Map? && w.Map?
    ensures DashHead(d, e, key, v) == DashHead(d, e, key, w)
  {
  }

  lemma FirstPath(items: seq<Item>, e: nat, p: nat, path: seq<nat>, key: string)
    requires path != [] && path[0] == 0 && IsPath(items, path)
    ensures var v := items[0].value;
            && v.Map? && items[0].Entry? && IsPath(v.items, path[1..])
            && Target(items, e, p, path) == Target(v.items, v.indent, p + 1, path[1..])
            && var out := KeepLastAt(items, path, key);
               out == [Entry(items[0].key, Map(v.indent, KeepLastAt(v.items, path[1..], key)))] + items[1..]
               && out[1..] == items[1..]
  {
    assert items[..0] == [];
  }

  lemma InFirstEncloses(before: seq<string>, x: Element, d: nat, after: seq<string>)
    requires WfElement(x, d) && EndsList(after, d) && x.items[0].value.Map?
    ensures Encloses(before + [DashHead(d, x.indent, x.items[0].key, x.items[0].value)],
                     x.items[0].value.indent, PrintItems(x.items[1..], x.indent) + after)
  {
    hide DashHead, KindOf, WfItems, PrintItems, Closed;
    var e, v := x.indent, x.items[0].value;
    ElementIs(x, d);
    MapIsWf(v, e);
    DashLineFacts(d, e, x.items[0].key, v);
    ParentLine(before, DashHead(d, e, x.items[0].key, v), v.indent);
    ClosedBelow(Kinds(after), d, e - 1);
    RestIsClosed(x.items[1..], e, after);
    ClosedBelow(Kinds(PrintItems(x.items[1..], e) + after), e, v.indent - 1);
  }

  /** A hint in what is nested in a later entry. */
  lemma {:induction false} RepairInRest(before: seq<string>, x: Element, d: nat, after: seq<string>,
                                        path: seq<nat>, key: string, hint: nat)
    requires WfElement(x, d) && EndsList(after, d) && PlainKey(key)
    requires path != [] && path[0] > 0 && IsPath(x.items, path)
    requires var t := Target(x.items, x.indent, |before|, path);
             hint in Starts(t.items, t.indent, key, t.line) && Count(t.items, key) >= 2
    ensures Remove(before + PrintElement(x, d) + after, key, hint)
            == Some(before + PrintElement(x.(items := KeepLastAt(x.items, path, key)), d) + after)
       <==> !DropsList(Target(x.items, x.indent, |before|, path).items, key)
  {
    hide *;
    ElementIs(x, d);
    var e, rest, front := x.indent, x.items[1..], before + Front(x, d);
    var later: seq<nat> := [path[0] - 1] + path[1..];
    LaterPath(x.items, e, |before|, path, key);
    FrontEncloses(before, x, d, after);
    RepairIsLastWins(front, rest, e, after, later, key, hint);
    LaterFront(x, d, path, key);
    var edited := KeepLastAt(rest, later, key);
    assert before + (Front(x, d) + PrintItems(rest, e)) + after == front + PrintItems(rest, e) + after;
    assert before + (Front(x, d) + PrintItems(edited, e)) + after == front + PrintItems(edited, e) + after;
  }

  lemma LaterPath(items: seq<Item>, e: nat, p: nat, path: seq<nat>, key: string)
    requires path != [] && path[0] > 0 && IsPath(items, path) && items != []
    ensures var rest, later: seq<nat> := items[1..], [path[0] - 1] + path[1..];
            && IsPath(rest, later)
            && Target(items, e, p, path) == Target(rest, e, p + |PrintItem(items[0], e)|, later)
            && KeepLastAt(items, path, key) == [items[0]] + KeepLastAt(rest, later, key)
  {
    hide PrintItem;
    var rest, later: seq<nat> := items[1..], [path[0] - 1] + path[1..];
    assert later[1..] == path[1..] && rest[later[0]] == items[path[0]];
    assert items[..path[0]][0] == items[0] && items[..path[0]][1..] == rest[..later[0]];
  }

  lemma LaterFront(x: Element, d: nat, path: seq<nat>, key: string)
    requires WfElement(x, d) && path != [] && path[0] > 0 && IsPath(x.items, path)
    ensures var later: seq<nat> := [path[0] - 1] + path[1..];
            && IsPath(x.items[1..], later)
            && PrintElement(x.(items := KeepLastAt(x.items, path, key)), d)
               == Front(x, d) + PrintItems(KeepLastAt(x.items[1..], later, key), x.indent)
  {
    hide DashHead, PrintTail, PrintItems, WfItems, IsPath, KeepLastAt, PrintItem;
    var later: seq<nat> := [path[0] - 1] + path[1..];
    LaterPath(x.items, x.indent, 0, path, key);
    var rest := KeepLastAt(x.items[1..], later, key);
    assert ([x.items[0]] + rest)[1..] == rest;
  }

  // ----- the repair in a list

  lemma {:induction false} PrintElementsAppend(a: seq<Element>, b: seq<Element>, d: nat)
    ensures PrintElements(a + b, d) == PrintElements(a, d) + PrintElements(b, d)
  {
    hide PrintElement;
    if a == [] {
      assert a + b == b;
    } else {
      assert (a + b)[1..] == a[1..] + b;
      PrintElementsAppend(a[1..], b, d);
    }
  }

  lemma PrintElementsAt(xs: seq<Element>, d: nat, j: nat)
    requires j < |xs|
    ensures PrintElements(xs, d)
         == PrintElements(xs[..j], d) + PrintElement(xs[j], d) + PrintElements(xs[j + 1..], d)
  {
    hide PrintElement;
    assert xs == xs[..j] + xs[j..] && xs[j..][1..] == xs[j + 1..];
    PrintElementsAppend(xs[..j], xs[j..], d);
  }

  /** `KeepLast` in the mapping at the path in one element; everything else is untouched. */
  function KeepLastIn(xs: seq<Element>, j: nat, path: seq<nat>, key: string): seq<Element>
    requires j < |xs| && IsPath(xs[j].items, path)
  {
    xs[j := xs[j].(items := KeepLastAt(xs[j].items, path, key))]
  }

  /** Duplicate repair in the elements of a list, in any document and for every hint on a duplicate
      that is not on the line of a dash: the element keeps the last entry of the key and all else
      stays, exactly when no dropped duplicate is the first entry of the element or holds a list at
      its own indent. */
  lemma {:induction false} RepairInList(before: seq<string>, xs: seq<Element>, d: nat, after: seq<string>, j: nat,
                                        path: seq<nat>, key: string, hint: nat)
    requires WfElements(xs, d) && EndsList(after, d) && PlainKey(key)
    requires j < |xs| && IsPath(xs[j].items, path)
    requires var p := |before| + |PrintElements(xs[..j], d)|;
             var t := Target(xs[j].items, xs[j].indent, p, path);
             && hint in Starts(t.items, t.indent, key, t.line) && Count(t.items, key) >= 2
             && (path == [] ==> hint != p)
    ensures Remove(before + PrintElements(xs, d) + after, key, hint)
            == Some(before + PrintElements(KeepLastIn(xs, j, path, key), d) + after)
       <==> !(path == [] && xs[j].items[0].key == key)
            && !DropsList(Target(xs[j].items, xs[j].indent, 0, path).items, key)
  {
    hide Remove, PrintElements, PrintElement, Target, IsPath, KeepLastAt, Starts, Count, DropsList, EndsList, PlainKey,
      WfElements;
    var x, edited := xs[j], xs[j].(items := KeepLastAt(xs[j].items, path, key));
    var earlier, later := PrintElements(xs[..j], d), PrintElements(xs[j + 1..], d);
    SplitIsWf(xs, d, j);
    MoreElementsEndIt(xs[j + 1..], d, after);
    PrintElementsAt(xs, d, j);
    PrintElementsAt(xs[j := edited], d, j);
    assert xs[j := edited][..j] == xs[..j] && xs[j := edited][j + 1..] == xs[j + 1..];
    TargetElsewhere(x.items, x.indent, |before + earlier|, 0, path);
    RepairInElement(before + earlier, x, d, later + after, path, key, hint);
    Around(before, earlier, PrintElement(x, d), later, after);
    Around(before, earlier, PrintElement(edited, d), later, after);
  }

  lemma RepairInElement(before: seq<string>, x: Element, d: nat, after: seq<string>,
                        path: seq<nat>, key: string, hint: nat)
    requires WfElement(x, d) && EndsList(after, d) && PlainKey(key) && IsPath(x.items, path)
    requires var t := Target(x.items, x.indent, |before|, path);
             && hint in Starts(t.items, t.indent, key, t.line) && Count(t.items, key) >= 2
             && (path == [] ==> hint != |before|)
    ensures Remove(before + PrintElement(x, d) + after, key, hint)
            == Some(before + PrintElement(x.(items := KeepLastAt(x.items, path, key)), d) + after)
       <==> !(path == [] && x.items[0].key == key)
            && !DropsList(Target(x.items, x.indent, |before|, path).items, key)
  {
    hide *;
    if path == [] {
      PathHere(x.items, x.indent, |before|, key);
      RepairHere(before, x, d, after, key, hint);
    } else if path[0] == 0 {
      RepairInFirst(before, x, d, after, path, key, hint);
    } else {
      RepairInRest(before, x, d, after, path, key, hint);
    }
  }

  lemma PathHere(items: seq<Item>, e: nat, p: nat, key: string)
    ensures IsPath(items, []) && Target(items, e, p, []) == Place(items, e, p)
    ensures KeepLastAt(items, [], key) == KeepLast(items, key)
  {
  }

  lemma SplitIsWf(xs: seq<Element>, d: nat, j: nat)
    requires WfElements(xs, d) && j < |xs|
    ensures WfElement(xs[j], d) && WfElements(xs[j + 1..], d)
    ensures xs[j].items != [] && xs[j].items[0].Entry?
  {
    hide WfItems;
  }

  lemma {:induction false} TargetElsewhere(items: seq<Item>, d: nat, p: nat, q: nat, path: seq<nat>)
    requires IsPath(items, path)
    ensures Target(items, d, p, path).items == Target(items, d, q, path).items
    decreases path
  {
    hide PrintItems;
    if path != [] {
      var v, k := items[path[0]].value, |PrintItems(items[..path[0]], d)| + 1;
      TargetElsewhere(v.items, v.indent, p + k, q + k, path[1..]);
    }
  }

  lemma Around(a: seq<string>, b: seq<string>, c: seq<string>, d: seq<string>, e: seq<string>)
    ensures (a + b) + c + (d + e) == a + (b + c + d) + e
  {
  }
}
