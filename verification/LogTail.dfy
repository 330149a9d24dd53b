/** Incremental log tailing (`crates/pertisk-api/src/logs.rs`, `crates/pertisk-api/src/loki.rs`):
    files read from the last position, and snapshots of the kernel log. */
module LogTail {
  import opened Text

  // ----- one poll

  datatype Tail = Tail(pos: nat, partial: string)

  /** What a poll finds: no readable file, or its length and then, perhaps later, its content. */
  datatype Poll = Unreadable | Read(length: nat, content: string)

  datatype Polled = Polled(tail: Tail, lines: seq<string>)

  function Restarted(t: Tail, p: Poll): Tail {
    if p.Read? && p.length < t.pos then Tail(0, "") else t
  }

  /** The text behind the position. */
  function Chunk(pos: nat, content: string): string {
    if pos <= |content| then content[pos..] else ""
  }

  /** One round of `follow_file`. */
  function Follow(t: Tail, p: Poll): Polled {
    match p
    case Unreadable => Polled(t, [])
    case Read(_, content) =>
      var r := Restarted(t, p);
      var chunk := Chunk(r.pos, content);
      if chunk == "" then Polled(r, [])
      else
        var pieces := Split(r.partial + chunk);
        Polled(Tail(r.pos + |chunk|, pieces.rest), StripCrs(pieces.complete))
  }

  function NonEmpty(lines: seq<string>): seq<string> {
    if lines == [] then [] else (if lines[0] == "" then [] else [lines[0]]) + NonEmpty(lines[1..])
  }

  class FileTail {
    var pos: nat
    var partial: string

    constructor (pos: nat)
      ensures this.pos == pos && partial == ""
    {
      this.pos, partial := pos, "";
    }

    function State(): Tail
      reads this
    {
      Tail(pos, partial)
    }

    /** Cuts the complete lines off `partial`. */
    method DrainLines(keepEmpty: bool) returns (lines: seq<string>)
      modifies this`partial
      ensures partial == Split(old(partial)).rest
      ensures var all := StripCrs(Split(old(partial)).complete);
              lines == if keepEmpty then all else NonEmpty(all)
    {
      hide *;
      ghost var all := StripCrs(Split(partial).complete);
      ghost var done: seq<string> := [];
      lines := [];
      NonEmptyNothing();
      NothingBefore(all);
      while FindChar(partial, LF).Some?
        invariant done + StripCrs(Split(partial).complete) == all
        invariant Split(partial).rest == Split(old(partial)).rest
        invariant lines == if keepEmpty then done else NonEmpty(done)
        decreases |partial|
      {
        var idx := FindChar(partial, LF).value;
        var line := StripCr(partial[..idx]);
        FirstLineGoes(partial, idx);
        Regroup(done, [line], StripCrs(Split(partial[idx + 1..]).complete));
        NonEmptyAppend(done, line);
        assert line == "" ==> NonEmpty(done) + [] == NonEmpty(done);
        if keepEmpty || line != "" {
          lines := lines + [line];
        }
        done := done + [line];
        partial := partial[idx + 1..];
      }
      NothingLeft(partial, done);
    }

    /** A round of `follow_file`; `read_new_lines` if empty lines are dropped. */
    method NewLines(p: Poll, keepEmpty: bool) returns (lines: seq<string>)
      modifies this
      ensures State() == Follow(old(State()), p).tail
      ensures var all := Follow(old(State()), p).lines;
              lines == if keepEmpty then all else NonEmpty(all)
    {
      if p.Unreadable? {
        return [];
      }
      if p.length < pos {
        pos := 0;
        partial := "";
      }
      var buf := Chunk(pos, p.content);
      if |buf| == 0 {
        return [];
      }
      pos := pos + |buf|;
      partial := partial + buf;
      lines := DrainLines(keepEmpty);
    }
  }

  lemma NonEmptyNothing()
    ensures NonEmpty([]) == []
  {
  }

  lemma NothingBefore<T>(s: seq<T>)
    ensures [] + s == s
  {
  }

  lemma NothingLeft(text: string, done: seq<string>)
    requires FindChar(text, LF).None?
    ensures Split(text).rest == text && done + StripCrs(Split(text).complete) == done
  {
  }

  lemma FirstLineGoes(text: string, idx: nat)
    requires FindChar(text, LF) == Some(idx)
    ensures StripCrs(Split(text).complete) == [StripCr(text[..idx])] + StripCrs(Split(text[idx + 1..]).complete)
    ensures Split(text).rest == Split(text[idx + 1..]).rest
  {
    hide Split, FindChar, StripCr;
    assert text == text[..idx] + [LF] + text[idx + 1..];
    SplitAtLf(text[..idx], text[idx + 1..]);
    StripCrsAppend([text[..idx]], Split(text[idx + 1..]).complete);
  }

  lemma {:induction false} NonEmptyAppend(a: seq<string>, line: string)
    ensures NonEmpty(a + [line]) == NonEmpty(a) + if line == "" then [] else [line]
  {
    if a == [] {
      assert a + [line] == [line] && [line][1..] == [];
    } else {
      assert (a + [line])[1..] == a[1..] + [line];
      NonEmptyAppend(a[1..], line);
      var first, last := if a[0] == "" then [] else [a[0]], if line == "" then [] else [line];
      Regroup(first, NonEmpty(a[1..]), last);
    }
  }

  // ----- many polls

  function Run(t: Tail, polls: seq<Poll>): Polled
    decreases |polls|
  {
    if polls == [] then Polled(t, [])
    else
      var first := Follow(t, polls[0]);
      var rest := Run(first.tail, polls[1..]);
      Polled(rest.tail, first.lines + rest.lines)
  }

  /** Splitting may be done piece by piece, wherever the text is cut. */
  lemma {:induction false} SplitInSteps(a: string, b: string)
    ensures var first := Split(a);
            var second := Split(first.rest + b);
            Split(a + b) == Pieces(first.complete + second.complete, second.rest)
    decreases |a|
  {
    hide Split;
    match FindChar(a, LF)
    case None =>
      SplitNoLf(a);
      assert [] + Split(a + b).complete == Split(a + b).complete;
    case Some(i) =>
      var line, tail := a[..i], a[i + 1..];
      SplitInSteps(tail, b);
      assert a == line + [LF] + tail;
      assert a + b == line + [LF] + (tail + b);
      SplitAtLf(line, tail);
      SplitAtLf(line, tail + b);
      Regroup([line], Split(tail).complete, Split(Split(tail).rest + b).complete);
  }

  lemma StripCrsAppend(a: seq<string>, b: seq<string>)
    ensures StripCrs(a + b) == StripCrs(a) + StripCrs(b)
  {
  }

  /** The file only grows: each read content extends what the file held when its length was taken,
      which extends the content read before. */
  predicate AppendOnly(before: string, polls: seq<Poll>)
    decreases |polls|
  {
    polls == []
    || (if polls[0].Unreadable? then AppendOnly(before, polls[1..])
        else before <= polls[0].content && |before| <= polls[0].length <= |polls[0].content|
             && AppendOnly(polls[0].content, polls[1..]))
  }

  function LastContent(before: string, polls: seq<Poll>): string
    decreases |polls|
  {
    if polls == [] then before
    else LastContent(if polls[0].Unreadable? then before else polls[0].content, polls[1..])
  }

  /** A tail that has read `content` from `start` on. */
  predicate CaughtUp(t: Tail, start: nat, content: string)
    requires start <= |content|
  {
    t == Tail(|content|, Split(content[start..]).rest)
  }

  /** A poll of a file that has grown splits the rest it kept together with the new text. */
  lemma FollowGrown(t: Tail, p: Poll)
    requires p.Read? && t.pos <= p.length && t.pos <= |p.content| && LF !in t.partial
    ensures var pieces := Split(t.partial + p.content[t.pos..]);
            Follow(t, p) == Polled(Tail(|p.content|, pieces.rest), StripCrs(pieces.complete))
  {
    hide Split, StripCrs;
    if p.content[t.pos..] == "" {
      assert t.partial + p.content[t.pos..] == t.partial;
      SplitNoLf(t.partial);
    }
  }

  lemma AppendOnlyIs(before: string, p: Poll, polls: seq<Poll>)
    ensures AppendOnly(before, [p] + polls)
       <==> if p.Unreadable? then AppendOnly(before, polls)
            else before <= p.content && |before| <= p.length <= |p.content| && AppendOnly(p.content, polls)
    ensures LastContent(before, [p] + polls) == LastContent(if p.Unreadable? then before else p.content, polls)
    ensures AppendOnly(before, []) && LastContent(before, []) == before
  {
    assert ([p] + polls)[1..] == polls;
  }

  lemma GrowStep(t: Tail, start: nat, before: string, p: Poll)
    requires start <= |before| && CaughtUp(t, start, before)
    requires p.Read? ==> before <= p.content && |before| <= p.length <= |p.content|
    ensures var after := if p.Read? then p.content else before;
            var r := Follow(t, p);
            && before <= after && CaughtUp(r.tail, start, after)
            && StripCrs(Split(after[start..]).complete) == StripCrs(Split(before[start..]).complete) + r.lines
  {
    hide Split, StripCrs, Follow;
    var first := Split(before[start..]);
    if p.Read? {
      var chunk := p.content[|before|..];
      assert before[start..] + chunk == p.content[start..];
      SplitInSteps(before[start..], chunk);
      StripCrsAppend(first.complete, Split(first.rest + chunk).complete);
      FollowGrown(t, p);
    } else {
      UnreadableSkips(t);
      NothingAfter(StripCrs(first.complete));
    }
  }

  lemma UnreadableSkips(t: Tail)
    ensures Follow(t, Unreadable) == Polled(t, [])
  {
  }

  lemma NothingAfter<T>(s: seq<T>)
    ensures s + [] == s
  {
  }

  lemma {:induction false} TailIsBatchFrom(t: Tail, start: nat, before: string, polls: seq<Poll>)
    requires start <= |before| && CaughtUp(t, start, before) && AppendOnly(before, polls)
    ensures var after := LastContent(before, polls);
            var r := Run(t, polls);
            && before <= after && CaughtUp(r.tail, start, after)
            && StripCrs(Split(after[start..]).complete) == StripCrs(Split(before[start..]).complete) + r.lines
    decreases |polls|
  {
    hide Split, Follow, CaughtUp, AppendOnly, LastContent, StripCrs;
    if polls == [] {
      AppendOnlyIs(before, Unreadable, []);
      assert StripCrs(Split(before[start..]).complete) + [] == StripCrs(Split(before[start..]).complete);
    } else {
      var p := polls[0];
      assert polls == [p] + polls[1..];
      AppendOnlyIs(before, p, polls[1..]);
      GrowStep(t, start, before, p);
      var first := Follow(t, p);
      TailIsBatchFrom(first.tail, start, if p.Unreadable? then before else p.content, polls[1..]);
      Regroup(StripCrs(Split(before[start..]).complete), first.lines, Run(first.tail, polls[1..]).lines);
    }
  }

  lemma Regroup<T>(a: seq<T>, b: seq<T>, c: seq<T>)
    ensures (a + b) + c == a + (b + c)
  {
  }

  /** The incremental tailer is the batch splitter: however an append-only file is cut into polls,
      the lines emitted are the complete lines of all that was read, and `partial` is the rest. */
  lemma {:induction false} TailIsBatch(atOpen: string, polls: seq<Poll>)
    requires AppendOnly(atOpen, polls)
    ensures atOpen <= LastContent(atOpen, polls)
    ensures var r := Run(Tail(|atOpen|, ""), polls);
            var appended := LastContent(atOpen, polls)[|atOpen|..];
            && r.lines == StripCrs(Split(appended).complete)
            && r.tail == Tail(|LastContent(atOpen, polls)|, Split(appended).rest)
  {
    assert atOpen[|atOpen|..] == "";
    SplitNoLf("");
    TailIsBatchFrom(Tail(|atOpen|, ""), |atOpen|, atOpen, polls);
    var r := Run(Tail(|atOpen|, ""), polls);
    assert StripCrs([]) + r.lines == r.lines;
  }

  lemma {:induction false} RunInSteps(t: Tail, a: seq<Poll>, b: seq<Poll>)
    ensures var first := Run(t, a);
            var second := Run(first.tail, b);
            Run(t, a + b) == Polled(second.tail, first.lines + second.lines)
    decreases |a|
  {
    hide Follow;
    if a == [] {
      assert a + b == b;
      assert [] + Run(t, b).lines == Run(t, b).lines;
    } else {
      assert (a + b)[1..] == a[1..] + b;
      RunInSteps(Follow(t, a[0]).tail, a[1..], b);
      Regroup(Follow(t, a[0]).lines, Run(Follow(t, a[0]).tail, a[1..]).lines,
        Run(Run(t, a).tail, b).lines);
    }
  }

  /** A poll that sees the file shorter than the position starts over: whatever was read before,
      the lines that follow are the complete lines of the new file. */
  lemma {:induction false} TruncationRestarts(t: Tail, before: seq<Poll>, p: Poll, after: seq<Poll>)
    requires p.Read? && p.length < Run(t, before).tail.pos
    requires AppendOnly("", [p] + after)
    ensures var r := Run(t, before + ([p] + after));
            var content := LastContent("", [p] + after);
            && r.lines == Run(t, before).lines + StripCrs(Split(content).complete)
            && r.tail == Tail(|content|, Split(content).rest)
  {
    hide Split, Follow, Run, AppendOnly;
    RunInSteps(t, before, [p] + after);
    SameAfterRestart(Run(t, before).tail, p, after);
    TailIsBatch("", [p] + after);
    var content := LastContent("", [p] + after);
    assert content[0..] == content;
  }

  lemma SameAfterRestart(t: Tail, p: Poll, after: seq<Poll>)
    requires p.Read? && p.length < t.pos
    ensures Run(t, [p] + after) == Run(Tail(0, ""), [p] + after)
  {
    hide Split;
    assert Follow(t, p) == Follow(Tail(0, ""), p);
  }

  /** A file that shrinks between the look at its length and the read gives nothing, this time. */
  lemma ShrunkFileGivesNothing(t: Tail, p: Poll)
    requires p.Read? && t.pos <= p.length && |p.content| <= t.pos
    ensures Follow(t, p) == Polled(t, [])
  {
  }

  function Fill(c: char, n: nat): (r: string)
    ensures |r| == n && forall i :: 0 <= i < n ==> r[i] == c
  {
    if n == 0 then "" else [c] + Fill(c, n - 1)
  }

  /** A text without LF, and not that of the kept rest, tells a tail from a fresh one. */
  lemma {:induction false} FillTells(t: Tail, n: nat)
    requires t.pos <= n && t != Tail(0, "")
    ensures var content := Fill(if t.partial != "" && t.partial[0] == 'a' then 'b' else 'a', n);
            Follow(t, Read(n, content)) != Follow(Tail(0, ""), Read(n, content))
  {
    hide Split, Fill;
    var content := Fill(if t.partial != "" && t.partial[0] == 'a' then 'b' else 'a', n);
    FillIsRead(Tail(0, ""), content);
    assert "" + content == content == content[0..];
    if LF in t.partial && t.pos < n {
      LfEndsALine(t.partial, content[t.pos..]);
    } else {
      FillIsRead(t, content);
    }
  }

  lemma FillIsRead(t: Tail, content: string)
    requires t.pos <= |content| && LF !in content && (LF !in t.partial || t.pos == |content|)
    ensures Follow(t, Read(|content|, content)) == Polled(Tail(|content|, t.partial + content[t.pos..]), [])
  {
    hide Split;
    if t.pos < |content| {
      SplitNoLf(t.partial + content[t.pos..]);
    } else {
      assert t.partial + content[t.pos..] == t.partial;
    }
  }

  lemma LfEndsALine(a: string, b: string)
    requires LF in a
    ensures Split(a + b).complete != []
  {
    var i :| 0 <= i < |a| && a[i] == LF;
    assert (a + b)[i] == LF;
  }

  /** A replaced file of length `n` is read as a new one, whatever it holds, only by a tail that is
      past that length or has read nothing; the others never read its first `pos` characters. */
  lemma {:induction false} ReplacementNoticed(t: Tail, n: nat)
    ensures (forall content: string :: |content| == n
               ==> Follow(t, Read(n, content)) == Follow(Tail(0, ""), Read(n, content)))
       <==> n < t.pos || t == Tail(0, "")
    ensures t.pos <= n ==> forall content: string, other: string ::
              |content| == |other| == n && content[t.pos..] == other[t.pos..]
              ==> Follow(t, Read(n, content)) == Follow(t, Read(n, other))
  {
    hide Split, Fill;
    if t.pos <= n && t != Tail(0, "") {
      FillTells(t, n);
    }
  }

  // ----- the kernel log

  /** The lines by which a snapshot extends the last one. */
  function NewSince(last: seq<string>, snap: seq<string>): seq<string> {
    if |last| < |snap| && snap[..|last|] == last then snap[|last|..] else []
  }

  /** One round of `follow_dmesg`: after a rotation the last 20 lines are sent again. */
  function FollowKernel(last: seq<string>, snap: seq<string>): seq<string> {
    if |last| < |snap| && snap[..|last|] == last then snap[|last|..]
    else if snap != last && last != [] then snap[if |snap| <= 20 then 0 else |snap| - 20..]
    else []
  }

  function KernelRun(last: seq<string>, snaps: seq<seq<string>>): seq<string>
    decreases |snaps|
  {
    if snaps == [] then [] else NewSince(last, snaps[0]) + KernelRun(snaps[0], snaps[1..])
  }

  predicate Growing(last: seq<string>, snaps: seq<seq<string>>)
    decreases |snaps|
  {
    snaps == [] || (last <= snaps[0] && Growing(snaps[0], snaps[1..]))
  }

  function LastSnap(last: seq<string>, snaps: seq<seq<string>>): seq<string>
    decreases |snaps|
  {
    if snaps == [] then last else LastSnap(snaps[0], snaps[1..])
  }

  /** While the kernel log only grows, exactly its growth is pushed. */
  lemma {:induction false} GrowthIsPushed(last: seq<string>, snaps: seq<seq<string>>)
    requires Growing(last, snaps)
    ensures last <= LastSnap(last, snaps)
    ensures last + KernelRun(last, snaps) == LastSnap(last, snaps)
    decreases |snaps|
  {
    if snaps == [] {
      assert last + [] == last;
    } else {
      GrowthIsPushed(snaps[0], snaps[1..]);
      assert snaps[0] == last + NewSince(last, snaps[0]);
      Regroup(last, NewSince(last, snaps[0]), KernelRun(snaps[0], snaps[1..]));
    }
  }

  function FollowRun(last: seq<string>, snaps: seq<seq<string>>): seq<string>
    decreases |snaps|
  {
    if snaps == [] then [] else FollowKernel(last, snaps[0]) + FollowRun(snaps[0], snaps[1..])
  }

  /** While the kernel log only grows, a follower is sent all of it, each line once: what was there
      at first and what came since. */
  lemma {:induction false} GrowthIsFollowed(last: seq<string>, snaps: seq<seq<string>>)
    requires Growing(last, snaps)
    ensures last <= LastSnap(last, snaps) && last + FollowRun(last, snaps) == LastSnap(last, snaps)
    decreases |snaps|
  {
    if snaps == [] {
      NothingAfter(last);
    } else {
      GrowthIsFollowed(snaps[0], snaps[1..]);
      assert snaps[0] == last + FollowKernel(last, snaps[0]);
      Regroup(last, FollowKernel(last, snaps[0]), FollowRun(snaps[0], snaps[1..]));
    }
  }

  predicate EndsIn(s: seq<string>, end: seq<string>) { |end| <= |s| && s[|s| - |end|..] == end }

  /** A follower of a log that dropped lines, and so no longer extends what it saw, is sent the last
      20 lines; nothing that was written since is missing iff that is at most 20 lines. */
  lemma {:induction false} RotationSendsTheEnd(dropped: seq<string>, kept: seq<string>, written: seq<string>)
    requires dropped + kept != [] && !(dropped + kept <= kept + written)
    ensures var snap, sent := kept + written, FollowKernel(dropped + kept, kept + written);
            && EndsIn(snap, sent) && |sent| == (if |snap| <= 20 then |snap| else 20)
            && (EndsIn(sent, written) <==> |written| <= 20)
  {
    var last, snap := dropped + kept, kept + written;
    var sent := FollowKernel(last, snap);
    assert |last| < |snap| && snap[..|last|] == last ==> last <= snap;
    assert sent == snap[if |snap| <= 20 then 0 else |snap| - 20..];
    if |written| <= 20 {
      assert sent[|sent| - |written|..] == snap[|snap| - |written|..] == written;
    }
  }

  /** Once the ring buffer drops its oldest line nothing is pushed, though lines were written since,
      except when all that was kept, and the first new line, repeat the dropped one. */
  lemma RingLosesLines(dropped: string, kept: seq<string>, written: seq<string>)
    ensures NewSince([dropped] + kept, kept + written) != []
       <==> |written| > 1 && written[0] == dropped && forall i :: 0 <= i < |kept| ==> kept[i] == dropped
  {
    var last, snap := [dropped] + kept, kept + written;
    if NewSince(last, snap) != [] {
      forall i | 0 <= i <= |kept| ensures snap[i] == dropped {
        AllRepeat(dropped, kept, written, i);
      }
      assert forall i :: 0 <= i < |kept| ==> snap[i] == kept[i];
      assert snap[|kept|] == written[0];
    }
    if |written| > 1 && written[0] == dropped && forall i :: 0 <= i < |kept| ==> kept[i] == dropped {
      assert snap[..|last|] == last;
      assert |snap[|last|..]| > 0;
    }
  }

  lemma {:induction false} AllRepeat(dropped: string, kept: seq<string>, written: seq<string>, i: nat)
    requires i <= |kept| && NewSince([dropped] + kept, kept + written) != []
    ensures (kept + written)[i] == dropped
  {
    var last, snap := [dropped] + kept, kept + written;
    assert snap[i] == snap[..|last|][i] == last[i];
    if i > 0 {
      AllRepeat(dropped, kept, written, i - 1);
      assert last[i] == kept[i - 1] == snap[i - 1];
    }
  }
}
