/** Chunked HTTP/1.1 bodies (section 7.1 of RFC 9112) as `crates/pertisk-bootstrap/src/api.rs`
    decodes them: `decode_chunked_body` and `parse_http_response`. */
module ChunkedBody {
  import opened Text
  import InitialCluster

  const USIZE_MAX: nat := 0xFFFF_FFFF_FFFF_FFFF

  /** No text is longer. */
  const ISIZE_MAX: nat := 0x7FFF_FFFF_FFFF_FFFF

  // ----- numbers

  function Digit(c: char): Option<nat> {
    if '0' <= c <= '9' then Some(c as nat - '0' as nat)
    else if 'a' <= c <= 'f' then Some(c as nat - 'a' as nat + 10)
    else if 'A' <= c <= 'F' then Some(c as nat - 'A' as nat + 10)
    else None
  }

  /** The value of a text all of digits in this base. */
  function Value(s: string, base: nat): (r: Option<nat>) {
    if s == "" then Some(0)
    else
      match (Value(s[..|s| - 1], base), Digit(s[|s| - 1]))
      case (Some(v), Some(d)) => if d < base then Some(v * base + d) else None
      case _ => None
  }

  /** `from_str_radix`: an optional plus sign, at least one digit, no more than the type holds. */
  function Parse(s: string, base: nat, max: nat): Option<nat> {
    var digits := if s != "" && s[0] == '+' then s[1..] else s;
    if digits == "" then None
    else
      match Value(digits, base)
      case None => None
      case Some(v) => if v <= max then Some(v) else None
  }

  function ChunkSize(line: string): Option<nat> {
    Parse(Trim(BeforeFirst(TrimRight(Trim(line), {CR}), ';')), 16, USIZE_MAX)
  }

  // ----- decoding

  datatype Error = SizeLineTruncated | InvalidSize | Truncated(need: nat, have: nat)

  /** `Panics`: the sum of position and chunk size overflows. */
  datatype Decoded = Body(text: string) | Failed(error: Error) | Panics

  function Prepend(data: string, d: Decoded): Decoded {
    match d
    case Body(text) => Body(data + text)
    case _ => d
  }

  predicate IsNewline(c: char) { c == CR || c == LF }

  function SkipNewlines(b: string, i: nat): (r: nat)
    requires i <= |b|
    ensures i <= r <= |b|
    decreases |b| - i
  {
    if i < |b| && IsNewline(b[i]) then SkipNewlines(b, i + 1) else i
  }

  function LineEnd(b: string, i: nat): (r: Option<nat>)
    requires i <= |b|
    ensures r.Some? ==> i <= r.value < |b| && b[r.value] == LF && forall k :: i <= k < r.value ==> b[k] != LF
    ensures r.None? ==> forall k :: i <= k < |b| ==> b[k] != LF
    decreases |b| - i
  {
    if i == |b| then None else if b[i] == LF then Some(i) else LineEnd(b, i + 1)
  }

  /** Behind one CR and one LF, where they are. */
  function AfterData(b: string, i: nat): (r: nat)
    requires i <= |b|
    ensures i <= r <= |b|
  {
    var j := if i < |b| && b[i] == CR then i + 1 else i;
    if j < |b| && b[j] == LF then j + 1 else j
  }

  function Decode(b: string, i: nat): Decoded
    requires i <= |b|
    decreases |b| - i
  {
    var j := SkipNewlines(b, i);
    if j == |b| then Body("")
    else
      match LineEnd(b, j)
      case None => Failed(SizeLineTruncated)
      case Some(e) =>
        match ChunkSize(b[j..e])
        case None => Failed(InvalidSize)
        case Some(size) =>
          var start := e + 1;
          if size == 0 then Body("")
          else if start + size > USIZE_MAX then Panics
          else if start + size > |b| then Failed(Truncated(size, |b| - start))
          else Prepend(b[start..start + size], Decode(b, AfterData(b, start + size)))
  }

  method SkipLoop(b: string, i: nat) returns (j: nat)
    requires i <= |b|
    ensures j == SkipNewlines(b, i)
  {
    j := i;
    while j < |b| && IsNewline(b[j])
      invariant i <= j <= |b| && SkipNewlines(b, j) == SkipNewlines(b, i)
    {
      j := j + 1;
    }
  }

  method DecodeChunkedBody(b: string) returns (r: Decoded)
    ensures r == Decode(b, 0)
  {
    hide *;
    var out := "";
    var i := 0;
    PrependNothing(Decode(b, 0));
    while i < |b|
      invariant 0 <= i <= |b|
      invariant Prepend(out, Decode(b, i)) == Decode(b, 0)
    {
      DecodeIs(b, i);
      PrependEnds(out);
      i := SkipLoop(b, i);
      if i == |b| {
        return Body(out);
      }
      var lineEnd := LineEnd(b, i);
      if lineEnd.None? {
        return Failed(SizeLineTruncated);
      }
      var size := ChunkSize(b[i..lineEnd.value]);
      if size.None? {
        return Failed(InvalidSize);
      }
      i := lineEnd.value + 1;
      if size.value == 0 {
        return Body(out);
      }
      if i + size.value > USIZE_MAX {
        return Panics;
      }
      if i + size.value > |b| {
        return Failed(Truncated(size.value, |b| - i));
      }
      PrependTwice(out, b[i..i + size.value], Decode(b, AfterData(b, i + size.value)));
      AfterDataIs(b, i + size.value);
      out := out + b[i..i + size.value];
      i := i + size.value;
      if i < |b| && b[i] == CR {
        i := i + 1;
      }
      if i < |b| && b[i] == LF {
        i := i + 1;
      }
    }
    AtEnd(b, out);
    r := Body(out);
  }

  lemma DecodeIs(b: string, i: nat)
    requires i <= |b|
    ensures Decode(b, i) ==
      var j := SkipNewlines(b, i);
      if j == |b| then Body("")
      else if LineEnd(b, j).None? then Failed(SizeLineTruncated)
      else
        var start := LineEnd(b, j).value + 1;
        var size := ChunkSize(b[j..start - 1]);
        if size.None? then Failed(InvalidSize)
        else if size.value == 0 then Body("")
        else if start + size.value > USIZE_MAX then Panics
        else if start + size.value > |b| then Failed(Truncated(size.value, |b| - start))
        else Prepend(b[start..start + size.value], Decode(b, AfterData(b, start + size.value)))
  {
    hide SkipNewlines, LineEnd, ChunkSize, AfterData, Prepend;
  }

  lemma AfterDataIs(b: string, i: nat)
    requires i <= |b|
    ensures AfterData(b, i) ==
      var j := if i < |b| && b[i] == CR then i + 1 else i;
      if j < |b| && b[j] == LF then j + 1 else j
  {
  }

  lemma PrependNothing(d: Decoded)
    ensures Prepend("", d) == d
  {
  }

  lemma PrependEnds(out: string)
    ensures Prepend(out, Body("")) == Body(out) && Prepend(out, Panics) == Panics
    ensures forall e :: Prepend(out, Failed(e)) == Failed(e)
  {
    assert out + "" == out;
  }

  lemma PrependTwice(a: string, b: string, d: Decoded)
    ensures Prepend(a, Prepend(b, d)) == Prepend(a + b, d)
  {
    if d.Body? {
      Assoc(a, b, d.text);
    }
  }

  lemma AtEnd(b: string, out: string)
    ensures Prepend(out, Decode(b, |b|)) == Body(out)
  {
    assert SkipNewlines(b, |b|) == |b|;
    assert out + "" == out;
  }

  // ----- encoding

  /** A chunk with its size as the sender writes it and its extensions. */
  datatype Chunk = Chunk(size: string, extensions: string, data: string)

  function SizeLine(c: Chunk): string { c.size + c.extensions }

  function EncodeChunk(c: Chunk): string { SizeLine(c) + [CR, LF] + c.data + [CR, LF] }

  function EncodeChunks(chunks: seq<Chunk>): string {
    if chunks == [] then "" else EncodeChunk(chunks[0]) + EncodeChunks(chunks[1..])
  }

  /** The size line of the last chunk, and then trailers or whatever else was read. */
  function Encode(chunks: seq<Chunk>, last: Chunk, after: string): string {
    EncodeChunks(chunks) + (SizeLine(last) + [CR, LF] + after)
  }

  function Data(chunks: seq<Chunk>): string {
    if chunks == [] then "" else chunks[0].data + Data(chunks[1..])
  }

  predicate HexDigits(s: string) { forall i :: 0 <= i < |s| ==> Digit(s[i]).Some? }

  /** Extensions start with a semicolon and hold no newline; the grammar's own white space before
      the semicolon counts as part of them. */
  predicate GoodExtensions(s: string) {
    s == ""
    || (LF !in s && exists k :: 0 <= k < |s| && s[k] == ';' && forall i :: 0 <= i < k ==> s[i] == ' ' || s[i] == '\t')
  }

  predicate GoodLine(c: Chunk) { c.size != "" && HexDigits(c.size) && GoodExtensions(c.extensions) }

  predicate GoodSize(c: Chunk) { GoodLine(c) && Value(c.size, 16) == Some(|c.data|) }

  predicate GoodChunks(chunks: seq<Chunk>) {
    forall i :: 0 <= i < |chunks| ==> GoodSize(chunks[i]) && chunks[i].data != ""
  }

  /** The shortest lower-case form, which is always a good size. */
  function HexOf(n: nat): string {
    var digit := [if n % 16 < 10 then ('0' as nat + n % 16) as char else ('a' as nat + n % 16 - 10) as char];
    if n < 16 then digit else HexOf(n / 16) + digit
  }

  lemma {:induction false} HexOfIsGood(n: nat)
    ensures HexOf(n) != "" && HexDigits(HexOf(n)) && Value(HexOf(n), 16) == Some(n)
  {
    var h := HexOf(n);
    if n < 16 {
      assert h[..|h| - 1] == "";
    } else {
      HexOfIsGood(n / 16);
      assert h[..|h| - 1] == HexOf(n / 16);
    }
  }

  // ----- size lines

  lemma HexDigitIsPlain(c: char)
    requires Digit(c).Some?
    ensures c !in WHITESPACE && c != ';' && c != '+' && !IsNewline(c)
  {
  }

  lemma {:induction false} HexValue(s: string)
    requires HexDigits(s)
    ensures Value(s, 16).Some?
  {
    if s != "" {
      HexValue(s[..|s| - 1]);
    }
  }

  lemma {:induction false} SizeLineReads(c: Chunk)
    requires GoodLine(c)
    ensures Value(c.size, 16).Some?
    ensures ChunkSize(SizeLine(c) + [CR])
         == if Value(c.size, 16).value <= USIZE_MAX then Value(c.size, 16) else None
    ensures LF !in SizeLine(c) && !IsNewline(SizeLine(c)[0])
  {
    hide *;
    GoodLineFacts(c);
    var size, ext := c.size, c.extensions;
    HexEnds(size);
    HexValue(size);
    if ext == "" {
      CrIsWhite();
      TrimEnds("", size, [CR]);
      TrimRightStays(size);
      NoSemicolon(size);
      CutNowhere(size, ';');
      TrimKeeps(size);
    } else {
      var k :| 0 <= k < |ext| && ext[k] == ';' && forall i :: 0 <= i < k ==> ext[i] == ' ' || ext[i] == '\t';
      TrimmedLine(size, ext, k);
    }
    SizeOf(SizeLine(c) + [CR], size);
  }

  lemma GoodLineFacts(c: Chunk)
    requires GoodLine(c)
    ensures c.size != "" && HexDigits(c.size) && GoodExtensions(c.extensions) && SizeLine(c) == c.size + c.extensions
    ensures c.extensions == "" ==> SizeLine(c) + [CR] == "" + c.size + [CR]
    ensures c.extensions != "" ==>
              exists k :: 0 <= k < |c.extensions| && c.extensions[k] == ';'
                          && forall i :: 0 <= i < k ==> c.extensions[i] == ' ' || c.extensions[i] == '\t'
    ensures LF !in SizeLine(c) && !IsNewline(SizeLine(c)[0])
  {
    HexDigitIsPlain(c.size[0]);
    forall i | 0 <= i < |c.size| ensures c.size[i] != LF {
      HexDigitIsPlain(c.size[i]);
    }
  }

  /** What is left of a size line after the trims and the cut at the semicolon is read as the size. */
  lemma SizeOf(line: string, size: string)
    requires Trim(BeforeFirst(TrimRight(Trim(line), {CR}), ';')) == size
    requires size != "" && HexDigits(size) && Value(size, 16).Some?
    ensures ChunkSize(line) == if Value(size, 16).value <= USIZE_MAX then Value(size, 16) else None
  {
    hide Trim, TrimRight, BeforeFirst, Value;
    HexDigitIsPlain(size[0]);
  }

  lemma HexEnds(size: string)
    requires size != "" && HexDigits(size)
    ensures size[0] !in WHITESPACE && size[|size| - 1] !in WHITESPACE
  {
    HexDigitIsPlain(size[0]);
    HexDigitIsPlain(size[|size| - 1]);
  }

  lemma NoSemicolon(size: string)
    requires HexDigits(size)
    ensures ';' !in size
  {
    forall i | 0 <= i < |size| ensures size[i] != ';' {
      HexDigitIsPlain(size[i]);
    }
  }

  lemma CutNowhere(s: string, c: char)
    requires c !in s
    ensures BeforeFirst(s, c) == s
  {
  }

  lemma CrIsWhite()
    ensures forall c :: c in [CR] ==> c in WHITESPACE
  {
  }

  lemma TrimRightStays(s: string)
    requires s != "" && s[|s| - 1] !in WHITESPACE
    ensures TrimRight(s, {CR}) == s
  {
  }

  lemma TrimEnds(before: string, s: string, after: string)
    requires s != "" && s[0] !in WHITESPACE && s[|s| - 1] !in WHITESPACE
    requires forall c :: c in before ==> c in WHITESPACE
    requires forall c :: c in after ==> c in WHITESPACE
    ensures Trim(before + s + after) == s
  {
    hide TrimLeft, TrimRight;
    assert before + s + after == before + (s + after);
    TrimLeftPadded(before, s + after, WHITESPACE);
    TrimRightPadded(s, after, WHITESPACE);
  }

  /** With extensions: the trimmed line still starts with the size and the blanks before the
      semicolon, and these blanks go with the second trim. */
  lemma TrimmedLine(size: string, ext: string, k: nat)
    requires size != "" && HexDigits(size) && k < |ext| && ext[k] == ';'
    requires forall i :: 0 <= i < k ==> ext[i] == ' ' || ext[i] == '\t'
    ensures Trim(BeforeFirst(TrimRight(Trim(size + ext + [CR]), {CR}), ';')) == size
  {
    hide *;
    HexEnds(size);
    NoSemicolon(size);
    var line := size + ext + [CR];
    var head := size + ext[..k];
    assert line == head + ";" + (ext[k + 1..] + [CR]);
    var r := TrimRight(Trim(line), {CR});
    TrimsKeepHead(head, ext[k + 1..] + [CR]);
    BlanksHaveNoSemicolon(ext[..k]);
    assert ';' !in head;
    CutAtSemicolon(r, head);
    TrimEnds("", size, ext[..k]) by { BlanksAreWhite(ext[..k]); }
    assert "" + size + ext[..k] == head;
  }

  lemma BlanksHaveNoSemicolon(s: string)
    requires forall i :: 0 <= i < |s| ==> s[i] == ' ' || s[i] == '\t'
    ensures ';' !in s
  {
  }

  lemma BlanksAreWhite(s: string)
    requires forall i :: 0 <= i < |s| ==> s[i] == ' ' || s[i] == '\t'
    ensures forall c :: c in s ==> c in WHITESPACE
  {
  }

  lemma CutAtSemicolon(r: string, head: string)
    requires ';' !in head && head + ";" <= r
    ensures BeforeFirst(r, ';') == head
  {
    hide FindChar;
    FindCharIs(head, ';', r[|head| + 1..]);
    assert r == head + [';'] + r[|head| + 1..];
  }

  lemma TrimsKeepHead(head: string, tail: string)
    requires head != "" && head[0] !in WHITESPACE
    ensures head + ";" <= TrimRight(Trim(head + ";" + tail), {CR})
  {
    hide TrimRight;
    var s := head + ";" + tail;
    assert TrimStart(s) == s;
    TrimRightKeeps(head + ";", tail, WHITESPACE);
    var t := Trim(s);
    assert t == head + ";" + t[|head| + 1..];
    TrimRightKeeps(head + ";", t[|head| + 1..], {CR});
  }

  lemma {:induction false} TrimRightKeeps(head: string, tail: string, cs: set<char>)
    requires head != "" && head[|head| - 1] !in cs
    ensures head <= TrimRight(head + tail, cs)
  {
    if tail == "" {
      assert head + tail == head;
    } else {
      assert (head + tail)[..|head + tail| - 1] == head + tail[..|tail| - 1];
      TrimRightKeeps(head, tail[..|tail| - 1], cs);
    }
  }

  // ----- one chunk

  lemma StartsPlain(b: string, i: nat)
    requires i < |b| && !IsNewline(b[i])
    ensures SkipNewlines(b, i) == i
  {
  }

  lemma LineEndIs(b: string, i: nat, e: nat)
    requires i <= e < |b| && b[e] == LF && forall k :: i <= k < e ==> b[k] != LF
    ensures LineEnd(b, i) == Some(e)
  {
    hide LineEnd;
    var r := LineEnd(b, i);
    assert r.Some?;
  }

  /** A size line at the position is read whole, and the data that follow it as far as they go. */
  lemma ChunkAt(pre: string, c: Chunk, rest: string)
    requires GoodLine(c)
    ensures var n, start := Value(c.size, 16), |pre| + |SizeLine(c)| + 2;
            var b := pre + (SizeLine(c) + [CR, LF] + rest);
            && n.Some? && |b| == start + |rest|
            && Decode(b, |pre|)
               == if n.value > 0xFFFF_FFFF_FFFF_FFFF then Failed(InvalidSize)
                  else if n.value == 0 then Body("")
                  else if start + n.value > 0xFFFF_FFFF_FFFF_FFFF then Panics
                  else if n.value > |rest| then Failed(Truncated(n.value, |rest|))
                  else Prepend(rest[..n.value], Decode(b, AfterData(b, start + n.value)))
  {
    hide Decode, SkipNewlines, LineEnd, ChunkSize, AfterData, Prepend, Value, HexDigits, GoodExtensions, IsNewline;
    var line := SizeLine(c);
    var b, e := pre + (line + [CR, LF] + rest), |pre| + |line| + 1;
    SizeLineReads(c);
    assert b[|pre|] == line[0];
    StartsPlain(b, |pre|);
    assert forall k :: |pre| <= k < |pre| + |line| ==> b[k] == line[k - |pre|];
    assert b[|pre| + |line|] == CR && b[e] == LF;
    LineEndIs(b, |pre|, e);
    assert b[|pre|..e] == line + [CR];
    assert b[e + 1..] == rest;
    DecodeIs(b, |pre|);
    var n := Value(c.size, 16).value;
    if e + 1 + n <= |b| {
      assert b[e + 1..e + 1 + n] == rest[..n];
    }
  }

  /** Behind the data of a chunk, one CR and one LF go. */
  lemma AfterChunkData(b: string, i: nat, rest: string)
    requires i <= |b|
    ensures b[i..] == [CR, LF] + rest ==> AfterData(b, i) == i + 2
    ensures b[i..] == [CR] ==> AfterData(b, i) == |b|
    ensures b[i..] == "" ==> AfterData(b, i) == |b|
  {
    if b[i..] == [CR, LF] + rest {
      assert b[i] == b[i..][0] && b[i + 1] == b[i..][1];
    }
    if b[i..] == [CR] {
      assert b[i] == b[i..][0];
    }
  }

  // ----- cut bodies

  lemma EncodeSplits(chunks: seq<Chunk>, last: Chunk, after: string)
    requires chunks != []
    ensures var c, tail := chunks[0], Encode(chunks[1..], last, after);
            && Encode(chunks, last, after) == EncodeChunk(c) + tail
            && Encode(chunks, last, after) == SizeLine(c) + [CR, LF] + (c.data + [CR, LF] + tail)
  {
    hide SizeLine;
    var c, tail := chunks[0], Encode(chunks[1..], last, after);
    Assoc(EncodeChunk(c), EncodeChunks(chunks[1..]), SizeLine(last) + [CR, LF] + after);
    assert EncodeChunk(c) + tail == SizeLine(c) + [CR, LF] + (c.data + [CR, LF] + tail);
  }

  /** What decoding gives for the first `k` characters: the data of the chunks before the cut, as
      long as the cut is at the very start, behind the data of a chunk, or behind the last size
      line; nothing if it is inside a size line or inside data. */
  function Received(chunks: seq<Chunk>, last: Chunk, k: nat): Option<string>
    decreases |chunks|
  {
    if k == 0 then Some("")
    else if chunks == [] then (if k >= |SizeLine(last)| + 2 then Some("") else None)
    else
      var c := chunks[0];
      if k < |SizeLine(c)| + 2 + |c.data| then None
      else if k < |EncodeChunk(c)| then Some(c.data)
      else
        match Received(chunks[1..], last, k - |EncodeChunk(c)|)
        case None => None
        case Some(text) => Some(c.data + text)
  }

  lemma NoLineEnd(pre: string, s: string)
    requires s != "" && !IsNewline(s[0]) && LF !in s
    ensures Decode(pre + s, |pre|) == Failed(SizeLineTruncated)
  {
    hide ChunkSize, LineEnd;
    var b := pre + s;
    StartsPlain(b, |pre|);
    assert forall k :: |pre| <= k < |b| ==> b[k] == s[k - |pre|];
  }

  lemma {:induction false} CutSizeLine(pre: string, c: Chunk, rest: string, k: nat)
    requires GoodLine(c) && 0 < k < |SizeLine(c)| + 2
    ensures Decode(pre + (SizeLine(c) + [CR, LF] + rest)[..k], |pre|) == Failed(SizeLineTruncated)
  {
    hide Decode, IsNewline, GoodExtensions, HexDigits, Value, ChunkSize;
    var line := SizeLine(c);
    SizeLineReads(c);
    var s := (line + [CR, LF] + rest)[..k];
    assert s[0] == line[0];
    assert forall i :: 0 <= i < |s| ==> s[i] == if i < |line| then line[i] else CR;
    NoLineEnd(pre, s);
  }

  /** A cut body never gives part of a chunk: it is an error, or the whole chunks before the cut. */
  lemma {:induction false} DecodeCut(pre: string, chunks: seq<Chunk>, last: Chunk, after: string, k: nat)
    requires GoodChunks(chunks) && GoodSize(last) && last.data == ""
    requires |pre + Encode(chunks, last, after)| <= ISIZE_MAX && k <= |Encode(chunks, last, after)|
    ensures var d := Decode(pre + Encode(chunks, last, after)[..k], |pre|);
            match Received(chunks, last, k)
            case Some(text) => d == Body(text)
            case None => d.Failed?
    decreases |chunks|
  {
    hide Decode, AfterData, Value, GoodExtensions, HexDigits, Encode;
    var full := Encode(chunks, last, after);
    if k == 0 {
      assert pre + full[..0] == pre;
      AtEnd(pre, "");
      PrependNothing(Decode(pre, |pre|));
    } else if chunks == [] {
      LastAlone(last, after);
      if k < |SizeLine(last)| + 2 {
        CutSizeLine(pre, last, after, k);
      } else {
        ChunkAt(pre, last, after[..k - |SizeLine(last)| - 2]);
        assert full[..k] == SizeLine(last) + [CR, LF] + after[..k - |SizeLine(last)| - 2];
      }
    } else {
      EncodeSplits(chunks, last, after);
      if k < |SizeLine(chunks[0])| + 2 {
        CutSizeLine(pre, chunks[0], chunks[0].data + [CR, LF] + Encode(chunks[1..], last, after), k);
      } else if k < |EncodeChunk(chunks[0])| {
        CutChunk(pre, chunks[0], Encode(chunks[1..], last, after), k);
      } else {
        WholeChunk(pre, chunks[0], Encode(chunks[1..], last, after), k);
        var next := pre + EncodeChunk(chunks[0]);
        DecodeCut(next, chunks[1..], last, after, k - |EncodeChunk(chunks[0])|);
      }
    }
  }

  lemma LastAlone(last: Chunk, after: string)
    ensures Encode([], last, after) == SizeLine(last) + [CR, LF] + after
  {
  }

  /** The cut is in the data of the chunk, or between its data and its end. */
  lemma CutChunk(pre: string, c: Chunk, tail: string, k: nat)
    requires GoodSize(c) && c.data != "" && |pre + (EncodeChunk(c) + tail)| <= ISIZE_MAX
    requires |SizeLine(c)| + 2 <= k < |EncodeChunk(c)|
    ensures var d := Decode(pre + (SizeLine(c) + [CR, LF] + (c.data + [CR, LF] + tail))[..k], |pre|);
            if k < |SizeLine(c)| + 2 + |c.data| then d.Failed? else d == Body(c.data)
  {
    hide Decode, AfterData, Value, GoodExtensions, HexDigits;
    var m := k - |SizeLine(c)| - 2;
    var rest := (c.data + [CR, LF] + tail)[..m];
    var s := (SizeLine(c) + [CR, LF] + (c.data + [CR, LF] + tail))[..k];
    assert s == SizeLine(c) + [CR, LF] + rest;
    ChunkAt(pre, c, rest);
    if m >= |c.data| {
      var b, i := pre + s, |pre| + |SizeLine(c)| + 2 + |c.data|;
      assert b[i..] == rest[|c.data|..];
      assert rest[|c.data|..] == [CR, LF][..m - |c.data|];
      assert m - |c.data| == 0 || m - |c.data| == 1;
      assert b[i..] == "" || b[i..] == [CR];
      AfterChunkData(b, i, "");
      AtEnd(b, c.data);
      assert rest[..|c.data|] == c.data;
    }
  }

  /** The cut is behind the chunk. */
  lemma {:induction false} WholeChunk(pre: string, c: Chunk, tail: string, k: nat)
    requires GoodSize(c) && c.data != "" && |pre + (EncodeChunk(c) + tail)| <= ISIZE_MAX
    requires |EncodeChunk(c)| <= k <= |EncodeChunk(c) + tail|
    ensures var cut := tail[..k - |EncodeChunk(c)|];
            Decode(pre + (SizeLine(c) + [CR, LF] + (c.data + [CR, LF] + tail))[..k], |pre|)
            == Prepend(c.data, Decode(pre + EncodeChunk(c) + cut, |pre + EncodeChunk(c)|))
  {
    hide Decode, AfterData, Value, GoodExtensions, HexDigits;
    var cut := tail[..k - |EncodeChunk(c)|];
    var rest := c.data + [CR, LF] + cut;
    var b := pre + (SizeLine(c) + [CR, LF] + rest);
    assert (SizeLine(c) + [CR, LF] + (c.data + [CR, LF] + tail))[..k] == SizeLine(c) + [CR, LF] + rest;
    assert b == pre + EncodeChunk(c) + cut;
    ChunkAt(pre, c, rest);
    var i := |pre| + |SizeLine(c)| + 2 + |c.data|;
    assert b[i..] == [CR, LF] + cut;
    AfterChunkData(b, i, cut);
    assert rest[..|c.data|] == c.data;
  }

  lemma {:induction false} ReceivedWhole(chunks: seq<Chunk>, last: Chunk, after: string)
    requires GoodSize(last)
    ensures Received(chunks, last, |Encode(chunks, last, after)|) == Some(Data(chunks))
    decreases |chunks|
  {
    hide SizeLine, GoodLine, Value;
    if chunks == [] {
      LastAlone(last, after);
    } else {
      EncodeSplits(chunks, last, after);
      ReceivedWhole(chunks[1..], last, after);
    }
  }

  /** Decoding undoes encoding: whatever the data, extensions and trailers. */
  lemma {:induction false} DecodeEncoded(chunks: seq<Chunk>, last: Chunk, after: string)
    requires GoodChunks(chunks) && GoodSize(last) && last.data == ""
    requires |Encode(chunks, last, after)| <= ISIZE_MAX
    ensures Decode(Encode(chunks, last, after), 0) == Body(Data(chunks))
  {
    hide Decode, Encode, Received, GoodChunks, GoodSize;
    var b := Encode(chunks, last, after);
    assert "" + b == b && b[..|b|] == b && "" + b[..|b|] == b;
    DecodeCut("", chunks, last, after, |b|);
    ReceivedWhole(chunks, last, after);
  }

  lemma {:induction false} ReceivedBetween(chunks: seq<Chunk>, lost: seq<Chunk>, last: Chunk)
    ensures Received(chunks + lost, last, |EncodeChunks(chunks)|) == Some(Data(chunks))
    decreases |chunks|
  {
    if chunks != [] {
      assert (chunks + lost)[1..] == chunks[1..] + lost;
      ReceivedBetween(chunks[1..], lost, last);
    }
  }

  // ----- responses

  const BLANK_LINE: string := [CR, LF, CR, LF]

  datatype Response =
    | Response(status: nat, body: string)
    | IncompleteHead
    | BadStatus
    | BadBody(error: Error)
    | BodyPanics

  function HeaderEnd(raw: string): (r: Option<nat>)
    ensures r.Some? ==> r.value <= |raw|
  {
    match Find(raw, BLANK_LINE)
    case Some(i) => Some(i)
    case None => Find(raw, [LF, LF])
  }

  function Word(s: string): (r: string)
    ensures |r| <= |s| && r == s[..|r|]
  {
    if s == "" || s[0] in WHITESPACE then "" else [s[0]] + Word(s[1..])
  }

  /** `split_whitespace().nth(1)`. */
  function SecondWord(line: string): Option<string> {
    var first := TrimStart(line);
    var second := TrimStart(first[|Word(first)|..]);
    if Word(second) == "" then None else Some(Word(second))
  }

  function Status(head: string): Option<nat> {
    var line := if Lines(head) == [] then "" else Lines(head)[0];
    match SecondWord(line)
    case None => None
    case Some(word) => Parse(word, 10, 0xFFFF)
  }

  function Lower(s: string): (r: string)
    ensures |r| == |s|
    ensures forall i :: 0 <= i < |s| ==> r[i] == if 'A' <= s[i] <= 'Z' then s[i] + ('a' - 'A') else s[i]
  {
    seq(|s|, i requires 0 <= i < |s| => if 'A' <= s[i] <= 'Z' then s[i] + ('a' - 'A') else s[i])
  }

  predicate Chunked(head: string) {
    var lines := Lines(head);
    exists i :: 0 <= i < |lines| && "transfer-encoding:" <= Lower(lines[i]) && Contains(Lower(lines[i]), "chunked")
  }

  /** `parse_http_response`. */
  function ParseResponse(raw: string): Response {
    match HeaderEnd(raw)
    case None => IncompleteHead
    case Some(i) =>
      var head, body := raw[..i], TrimPrefixes(TrimPrefixes(raw[i..], BLANK_LINE), [LF, LF]);
      match Status(head)
      case None => BadStatus
      case Some(status) => if Chunked(head) then FromBody(status, Decode(body, 0)) else Response(status, body)
  }

  function FromBody(status: nat, d: Decoded): Response {
    match d
    case Body(text) => Response(status, text)
    case Failed(error) => BadBody(error)
    case Panics => BodyPanics
  }

  /** A head that no blank line ends early is found whole, and the body behind it too. */
  lemma HeadIsFound(head: string, body: string)
    requires !Contains(head + [CR, LF, CR], BLANK_LINE)
    requires body == "" || !IsNewline(body[0])
    ensures var raw := head + BLANK_LINE + body;
            && HeaderEnd(raw) == Some(|head|) && raw[..|head|] == head
            && TrimPrefixes(TrimPrefixes(raw[|head|..], BLANK_LINE), [LF, LF]) == body
  {
    hide *;
    var raw := head + BLANK_LINE + body;
    forall j: nat | j < |head| ensures !OccursAt(raw, BLANK_LINE, j) {
      NoEarlyBlankLine(head, body, j);
    }
    BlankLineAt(head, body);
    FindIs(raw, BLANK_LINE, |head|);
    HeaderEndIs(raw, |head|);
    TrimOnce(body);
  }

  lemma HeaderEndIs(raw: string, i: nat)
    requires Find(raw, BLANK_LINE) == Some(i)
    ensures HeaderEnd(raw) == Some(i)
  {
  }

  lemma BlankLineAt(head: string, body: string)
    ensures var raw := head + BLANK_LINE + body;
            OccursAt(raw, BLANK_LINE, |head|) && raw[..|head|] == head && raw[|head|..] == BLANK_LINE + body
  {
    assert (head + BLANK_LINE + body)[|head|..|head| + 4] == BLANK_LINE;
  }

  lemma NoEarlyBlankLine(head: string, body: string, j: nat)
    requires !Contains(head + [CR, LF, CR], BLANK_LINE) && j < |head|
    ensures !OccursAt(head + BLANK_LINE + body, BLANK_LINE, j)
  {
    var raw, early := head + BLANK_LINE + body, head + [CR, LF, CR];
    assert !OccursAt(early, BLANK_LINE, j);
    assert raw[j..j + 4] == early[j..j + 4];
  }

  lemma TrimOnce(body: string)
    requires body == "" || !IsNewline(body[0])
    ensures TrimPrefixes(TrimPrefixes(BLANK_LINE + body, BLANK_LINE), [LF, LF]) == body
  {
    assert (BLANK_LINE + body)[4..] == body;
    assert BLANK_LINE <= BLANK_LINE + body;
    assert !(BLANK_LINE <= body);
    assert !([LF, LF] <= body);
    assert TrimPrefixes(body, BLANK_LINE) == body;
  }

  /** A response with a good head and a chunked body reads as its status and its data. */
  lemma ResponseRoundTrip(head: string, status: nat, chunks: seq<Chunk>, last: Chunk, after: string)
    requires !Contains(head + [CR, LF, CR], BLANK_LINE) && Status(head) == Some(status) && Chunked(head)
    requires GoodChunks(chunks) && GoodSize(last) && last.data == ""
    requires |Encode(chunks, last, after)| <= ISIZE_MAX
    ensures ParseResponse(head + BLANK_LINE + Encode(chunks, last, after)) == Response(status, Data(chunks))
  {
    hide Decode, Status, Chunked, Contains, HeaderEnd, TrimPrefixes, Encode;
    EncodedStart(chunks, last, after);
    HeadIsFound(head, Encode(chunks, last, after));
    DecodeEncoded(chunks, last, after);
  }

  lemma EncodedStart(chunks: seq<Chunk>, last: Chunk, after: string)
    requires GoodChunks(chunks) && GoodSize(last)
    ensures var b := Encode(chunks, last, after); b != "" && !IsNewline(b[0])
  {
    hide GoodExtensions, HexDigits, Value, IsNewline, Encode;
    if chunks == [] {
      LastAlone(last, after);
      SizeLineReads(last);
      assert Encode(chunks, last, after)[0] == SizeLine(last)[0];
    } else {
      EncodeSplits(chunks, last, after);
      SizeLineReads(chunks[0]);
      assert Encode(chunks, last, after)[0] == SizeLine(chunks[0])[0];
    }
  }

  /** A response cut in its body is an error or reads as the whole chunks that arrived. */
  lemma CutResponse(head: string, status: nat, chunks: seq<Chunk>, last: Chunk, after: string, k: nat)
    requires !Contains(head + [CR, LF, CR], BLANK_LINE) && Status(head) == Some(status) && Chunked(head)
    requires GoodChunks(chunks) && GoodSize(last) && last.data == ""
    requires |Encode(chunks, last, after)| <= ISIZE_MAX && k <= |Encode(chunks, last, after)|
    ensures var r := ParseResponse(head + BLANK_LINE + Encode(chunks, last, after)[..k]);
            match Received(chunks, last, k)
            case Some(text) => r == Response(status, text)
            case None => r.BadBody?
  {
    hide Decode, Status, Chunked, Contains, HeaderEnd, TrimPrefixes, Encode, Received;
    EncodedStart(chunks, last, after);
    var cut := Encode(chunks, last, after)[..k];
    assert k > 0 ==> cut[0] == Encode(chunks, last, after)[0];
    HeadIsFound(head, cut);
    DecodeCut("", chunks, last, after, k);
    assert "" + cut == cut && "" + Encode(chunks, last, after) == Encode(chunks, last, after);
  }

  /** So a response that ends between two chunks reads as complete, whatever chunks were lost with
      the last one. */
  lemma {:induction false} LostChunksUnnoticed(head: string, status: nat, chunks: seq<Chunk>, lost: seq<Chunk>,
                                               last: Chunk, after: string)
    requires !Contains(head + [CR, LF, CR], BLANK_LINE) && Status(head) == Some(status) && Chunked(head)
    requires GoodChunks(chunks + lost) && GoodSize(last) && last.data == ""
    requires |Encode(chunks + lost, last, after)| <= ISIZE_MAX
    ensures EncodeChunks(chunks) <= Encode(chunks + lost, last, after)
    ensures ParseResponse(head + BLANK_LINE + EncodeChunks(chunks)) == Response(status, Data(chunks))
  {
    hide *;
    EncodedBetween(chunks, lost, last, after);
    ReceivedBetween(chunks, lost, last);
    CutResponse(head, status, chunks + lost, last, after, |EncodeChunks(chunks)|);
  }

  lemma EncodedBetween(chunks: seq<Chunk>, lost: seq<Chunk>, last: Chunk, after: string)
    ensures var k, all := |EncodeChunks(chunks)|, Encode(chunks + lost, last, after);
            k <= |all| && all[..k] == EncodeChunks(chunks)
  {
    hide EncodeChunks;
    EncodeChunksAppend(chunks, lost);
  }

  lemma {:induction false} EncodeChunksAppend(a: seq<Chunk>, b: seq<Chunk>)
    ensures EncodeChunks(a + b) == EncodeChunks(a) + EncodeChunks(b)
  {
    hide EncodeChunk;
    if a == [] {
      assert a + b == b;
    } else {
      assert (a + b)[1..] == a[1..] + b;
      EncodeChunksAppend(a[1..], b);
      Assoc(EncodeChunk(a[0]), EncodeChunks(a[1..]), EncodeChunks(b));
    }
  }

  /** Hexadecimal digits, whose letters may be of either case, and nothing else. */
  lemma {:induction false} DigitsAreHex(c: char)
    ensures Digit(c).Some? <==> '0' <= c <= '9' || 'a' <= c <= 'f' || 'A' <= c <= 'F'
    ensures '0' <= c <= '9' ==> Digit(c) == Some(c as nat - 48)
    ensures 'a' <= c <= 'f' ==> Digit(c) == Some(c as nat - 97 + 10) == Digit((c as nat - 32) as char)
  {
  }

  /** Decimal numbers are those of decimal digits only. */
  lemma {:induction false} DecimalDigitsOnly(s: string)
    ensures Value(s, 10).Some? <==> forall i :: 0 <= i < |s| ==> '0' <= s[i] <= '9'
  {
    if s != "" {
      var front := s[..|s| - 1];
      DecimalDigitsOnly(front);
      assert s == front + [s[|s| - 1]];
      assert forall i :: 0 <= i < |front| ==> s[i] == front[i];
    }
  }

  /** A size may have a plus sign before its digits, and needs at least one digit. */
  lemma SignedNumbers(digits: string, base: nat, max: nat)
    ensures digits != "" && digits[0] != '+' ==> Parse("+" + digits, base, max) == Parse(digits, base, max)
    ensures Parse("", base, max) == None && Parse("+", base, max) == None
  {
    assert ("+" + digits)[1..] == digits;
    assert "+"[1..] == "";
  }

  // ----- heads

  /** A response is incomplete exactly if no blank line, of either kind, ends its head. */
  lemma {:induction false} IncompleteWithoutBlankLine(raw: string)
    ensures ParseResponse(raw) == IncompleteHead <==> !Contains(raw, "\r\n\r\n") && !Contains(raw, "\n\n")
  {
    hide Status, Chunked, Decode, TrimPrefixes, Find, Contains;
    FindFinds(raw, BLANK_LINE);
    FindFinds(raw, [LF, LF]);
    assert BLANK_LINE == "\r\n\r\n" && [LF, LF] == "\n\n";
  }

  lemma FindFinds(s: string, p: string)
    ensures Find(s, p).Some? <==> Contains(s, p)
  {
  }

  /** A body that is not declared as chunked is returned as it came. */
  lemma {:induction false} PlainResponse(head: string, status: nat, body: string)
    requires !Contains(head + [CR, LF, CR], BLANK_LINE) && Status(head) == Some(status) && !Chunked(head)
    requires body == "" || !IsNewline(body[0])
    ensures ParseResponse(head + BLANK_LINE + body) == Response(status, body)
  {
    hide Decode, Status, Chunked, Contains, HeaderEnd, TrimPrefixes, IsNewline;
    HeadIsFound(head, body);
  }

  /** Further blank lines before the body are dropped. */
  lemma {:induction false} ExtraBlankLinesGo(head: string, body: string)
    requires !Contains(head + [CR, LF, CR], BLANK_LINE)
    requires body == "" || !IsNewline(body[0])
    ensures ParseResponse(head + BLANK_LINE + (BLANK_LINE + body)) == ParseResponse(head + BLANK_LINE + body)
  {
    hide Decode, Status, Chunked, Contains, TrimPrefixes, IsNewline, HeaderEnd, Find, OccursAt;
    HeadIsFound(head, body);
    var more := BLANK_LINE + body;
    forall j: nat | j < |head| ensures !OccursAt(head + BLANK_LINE + more, BLANK_LINE, j) {
      NoEarlyBlankLine(head, more, j);
    }
    BlankLineAt(head, more);
    FindIs(head + BLANK_LINE + more, BLANK_LINE, |head|);
    HeaderEndIs(head + BLANK_LINE + more, |head|);
    TrimTwice(body);
  }

  lemma TrimTwice(body: string)
    requires body == "" || !IsNewline(body[0])
    ensures TrimPrefixes(TrimPrefixes(BLANK_LINE + (BLANK_LINE + body), BLANK_LINE), [LF, LF]) == body
    ensures TrimPrefixes(TrimPrefixes(BLANK_LINE + body, BLANK_LINE), [LF, LF]) == body
  {
    TrimOnce(body);
    assert (BLANK_LINE + (BLANK_LINE + body))[4..] == BLANK_LINE + body;
    assert BLANK_LINE <= BLANK_LINE + (BLANK_LINE + body);
  }

  /** A head declares a chunked body by a field line in any case of letters. */
  lemma {:induction false} ChunkedFields(start: string, field: string)
    requires LF !in start && Lower(field) == "transfer-encoding: chunked"
    ensures Chunked(start + [CR, LF] + field)
  {
    hide Lines, Contains, Lower;
    FieldHasNoLf(field);
    FieldLine(start, field);
    var lines := Lines(start + [CR, LF] + field);
    ContainsAtEnd("transfer-encoding: ", "chunked");
    assert "transfer-encoding: " + "chunked" == "transfer-encoding: chunked";
    assert "transfer-encoding:" <= "transfer-encoding: chunked";
    assert lines[1] == field && "transfer-encoding:" <= Lower(lines[1]) && Contains(Lower(lines[1]), "chunked");
  }

  lemma ContainsAtEnd(a: string, b: string)
    ensures Contains(a + b, b)
  {
    assert OccursAt(a + b, b, |a|);
  }

  lemma FieldHasNoLf(field: string)
    requires Lower(field) == "transfer-encoding: chunked"
    ensures LF !in field && field != "" && field[|field| - 1] != CR
  {
    forall i | 0 <= i < |field| ensures field[i] != LF && field[i] != CR {
      assert Lower(field)[i] == "transfer-encoding: chunked"[i];
    }
  }

  lemma FieldLine(start: string, field: string)
    requires LF !in start && LF !in field && field != "" && field[|field| - 1] != CR
    ensures var lines := Lines(start + [CR, LF] + field); |lines| == 2 && lines[1] == field
  {
    hide Split;
    SplitAtLf(start + [CR], field);
    SplitNoLf(field);
    assert start + [CR, LF] + field == (start + [CR]) + [LF] + field;
  }

  // ----- status lines

  lemma {:induction false} DecimalReads(n: nat)
    ensures Value(InitialCluster.Decimal(n), 10) == Some(n)
  {
    var d := InitialCluster.Decimal(n);
    if n < 10 {
      assert d[..|d| - 1] == "";
    } else {
      DecimalReads(n / 10);
      assert d[..|d| - 1] == InitialCluster.Decimal(n / 10);
    }
  }

  lemma {:induction false} WordIs(word: string, rest: string)
    requires forall i :: 0 <= i < |word| ==> word[i] !in WHITESPACE
    requires rest == "" || rest[0] in WHITESPACE
    ensures Word(word + rest) == word
  {
    if word == "" {
      assert word + rest == rest;
    } else {
      assert (word + rest)[1..] == word[1..] + rest;
      WordIs(word[1..], rest);
    }
  }

  /** Any head that starts with a version, a number and a reason has that number as its status. */
  lemma StatusLineReads(version: string, n: nat, reason: string, fields: string)
    requires version != "" && Plain(version)
    requires n <= 0xFFFF && LF !in reason
    ensures Status(version + " " + InitialCluster.Decimal(n) + " " + reason + [CR, LF] + fields) == Some(n)
  {
    hide *;
    var d := InitialCluster.Decimal(n);
    var line := version + " " + d + " " + reason;
    DecimalReads(n);
    DigitsArePlain(d);
    PlainHasNoLf(version);
    LineHasNoLf(version, d, reason);
    FirstLine(line, fields);
    SecondWordIs(version, d, reason);
    StatusIs(line + [CR, LF] + fields, line, d, n);
  }

  lemma LineHasNoLf(a: string, b: string, c: string)
    requires LF !in a && LF !in b && LF !in c
    ensures LF !in a + " " + b + " " + c
  {
  }

  lemma StatusIs(head: string, line: string, d: string, n: nat)
    requires Lines(head) != [] && Lines(head)[0] == line && SecondWord(line) == Some(d)
    requires d != "" && d[0] != '+' && Value(d, 10) == Some(n) && n <= 0xFFFF
    ensures Status(head) == Some(n)
  {
    hide Lines, SecondWord, Value;
  }

  predicate Plain(s: string) { forall i :: 0 <= i < |s| ==> s[i] !in WHITESPACE }

  lemma PlainHasNoLf(s: string)
    requires Plain(s)
    ensures LF !in s
  {
  }

  lemma SecondWordIs(first: string, second: string, rest: string)
    requires first != "" && second != "" && Plain(first) && Plain(second)
    ensures SecondWord(first + " " + second + " " + rest) == Some(second)
  {
    hide Word, TrimLeft, WHITESPACE;
    var line := first + " " + second + " " + rest;
    var tail, last := " " + (second + " " + rest), " " + rest;
    SpaceIsWhite();
    assert line == first + tail && second + " " + rest == second + last;
    assert line[0] == first[0] && (second + last)[0] == second[0];
    LeftStays(line);
    WordIs(first, tail);
    assert line[|first|..] == " " + (second + last);
    TrimLeftPadded(" ", second + last, WHITESPACE);
    WordIs(second, last);
  }

  lemma SpaceIsWhite()
    ensures forall c :: c in " " ==> c in WHITESPACE
    ensures ' ' in WHITESPACE
  {
  }

  lemma LeftStays(s: string)
    requires s != "" && s[0] !in WHITESPACE
    ensures TrimStart(s) == s
  {
  }

  lemma DigitsArePlain(d: string)
    requires d != "" && forall i :: 0 <= i < |d| ==> '0' <= d[i] <= '9'
    ensures d[0] != '+' && LF !in d && Plain(d)
  {
  }

  lemma FirstLine(line: string, rest: string)
    requires LF !in line
    ensures var lines := Lines(line + [CR, LF] + rest); lines != [] && lines[0] == line
  {
    hide Split;
    SplitAtLf(line + [CR], rest);
    assert line + [CR, LF] + rest == (line + [CR]) + [LF] + rest;
    assert StripCr(line + [CR]) == line;
  }
}
