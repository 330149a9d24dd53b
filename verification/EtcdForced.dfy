/** What a forced new cluster does to a manifest as a whole (`crates/pertisk-bootstrap/src/etcd_backup.rs`):
    patch, listen rewrite and finalize are one pass over its lines, and what the result says. */
module EtcdForced {
  import opened Text
  import opened EtcdManifest
  import InitialCluster

  // ----- one pass

  /** The value that is left after a flag. */
  function FinalValue(f: Flag, name: string, ip: string): string {
    if f == ClusterState then "existing" else ValueOf(f, name, ip)
  }

  /** What becomes of a line: rewritten for the first flag it holds, or for the listen flag if that
      has to be widened, or left alone. */
  function Settled(line: string, name: string, ip: string, widen: bool): string {
    match Acting(line)
    case Some(f) => Rewritten(line, f, FinalValue(f, name, ip))
    case None => if widen then ListenLine(line) else line
  }

  function Settle(lines: seq<string>, name: string, ip: string, widen: bool): (r: seq<string>)
    ensures |r| == |lines| && forall i :: 0 <= i < |r| ==> r[i] == Settled(lines[i], name, ip, widen)
  {
    seq(|lines|, i requires 0 <= i < |lines| => Settled(lines[i], name, ip, widen))
  }

  function Widened(lines: seq<string>, widen: bool): seq<string> {
    if widen then ListenLines(lines) else lines
  }

  lemma {:induction false} StripWidenedInserted(lines: seq<string>, widen: bool)
    ensures Strip(Widened(Inserted(lines), widen)) == Strip(Widened(lines, widen))
  {
    hide *;
    if lines == [] {
      DefaultForceLineCore();
      InsertedNothing();
      ForceLineStays(DEFAULT_FORCE_LINE, "");
      WidenedCons(DEFAULT_FORCE_LINE, [], widen);
      StripCons(if widen then ListenLine(DEFAULT_FORCE_LINE) else DEFAULT_FORCE_LINE, Widened([], widen));
      assert [DEFAULT_FORCE_LINE] + [] == [DEFAULT_FORCE_LINE];
    } else {
      var first, rest := lines[0], lines[1..];
      assert lines == [first] + rest;
      InsertedCons(first, rest);
      WidenedCons(first, rest, widen);
      var line := if widen then ListenLine(first) else first;
      StripCons(line, Widened(rest, widen));
      if Has(first, DataDir) {
        var force := ForceLine(first);
        ForceLineCore(first);
        ForceLineStays(force, first);
        WidenedCons(force, rest, widen);
        WidenedCons(first, [force] + rest, widen);
        StripCons(if widen then ListenLine(force) else force, Widened(rest, widen));
        StripCons(line, Widened([force] + rest, widen));
      } else {
        StripWidenedInserted(rest, widen);
        WidenedCons(first, Inserted(rest), widen);
        StripCons(line, Widened(Inserted(rest), widen));
      }
    }
  }

  lemma InsertedNothing()
    ensures Inserted([]) == [DEFAULT_FORCE_LINE]
  {
  }

  lemma InsertedCons(first: string, rest: seq<string>)
    ensures Inserted([first] + rest)
         == [first] + if Has(first, DataDir) then [ForceLine(first)] + rest else Inserted(rest)
  {
    hide Has, ForceLine;
    assert ([first] + rest)[1..] == rest;
  }

  lemma WidenedCons(first: string, rest: seq<string>, widen: bool)
    ensures Widened([first] + rest, widen)
         == [if widen then ListenLine(first) else first] + Widened(rest, widen)
  {
    hide ListenLine;
    var all := ListenLines([first] + rest);
    assert all == [ListenLine(first)] + ListenLines(rest);
  }

  /** An inserted line is not taken for the listen flag. */
  lemma ForceLineStays(line: string, near: string)
    requires line == ForceLine(near) || line == DEFAULT_FORCE_LINE
    ensures ListenLine(line) == line
  {
    hide Has, ForceLine, NoEq;
    ForceLinesHaveNoEq();
    ForceLineHasNoEq(near);
    NoEqNoFlags(line);
    ListenLineFlags(line, Listen);
  }

  /** The line after patch and listen rewrite. */
  function Passed(line: string, name: string, ip: string, widen: bool): string {
    if widen then ListenLine(PatchLine(line, name, ip)) else PatchLine(line, name, ip)
  }

  /** For a good name each line holds, once rewritten, the flag that was acted on and no other. */
  lemma PassedIs(line: string, name: string, ip: string, widen: bool)
    requires GoodName(name) && GoodIp(ip)
    ensures Acting(line).Some? ==> Passed(line, name, ip, widen) == PatchLine(line, name, ip)
    ensures Core(Passed(line, name, ip, widen)) == FORCE <==> Core(line) == FORCE
  {
    hide Has, Rewritten, ListenLine, Core, GoodName, GoodIp, ValueOf;
    if Acting(line).Some? {
      var f := Acting(line).value;
      FlagsOfPatched(line, f, name, ip, Listen);
      FlagsOfPatched(line, f, name, ip, f);
      ListenLineFlags(PatchLine(line, name, ip), Listen);
      FlaggedIsNotBare(line, f);
      FlaggedIsNotBare(PatchLine(line, name, ip), f);
    } else {
      ListenLineFlags(line, Listen);
      if Has(line, Listen) {
        FlaggedIsNotBare(line, Listen);
        FlaggedIsNotBare(ListenLine(line), Listen);
      }
    }
  }

  lemma SettledIs(line: string, name: string, ip: string, widen: bool)
    requires GoodName(name) && GoodIp(ip)
    ensures ReplaceLine(ReplaceLine(Passed(line, name, ip, widen),
              Cluster, ClusterOf(name, ip)), ClusterState, "existing")
         == Settled(line, name, ip, widen)
  {
    hide Has, Rewritten, ListenLine, GoodName, GoodIp, ClusterOf, PatchLine, Acting, ValueOf, FinalValue;
    PassedIs(line, name, ip, widen);
    if Acting(line).Some? {
      PatchLineIs(line, name, ip);
      FinallyRewritten(line, Acting(line).value, name, ip);
    } else {
      PatchLineIs(line, name, ip);
      ActsOnNothing(line);
      ListenLineFlags(line, Cluster);
      ListenLineFlags(line, ClusterState);
    }
  }

  lemma ActsOnNothing(line: string)
    ensures Acting(line).None? ==> !Has(line, Cluster) && !Has(line, ClusterState)
    ensures Acting(line).Some? ==> IsRewritten(Acting(line).value)
  {
    hide Has;
  }

  lemma PatchLineIs(line: string, name: string, ip: string)
    ensures PatchLine(line, name, ip)
         == match Acting(line) case None => line case Some(f) => Rewritten(line, f, ValueOf(f, name, ip))
    ensures Acting(line).Some? ==> IsRewritten(Acting(line).value)
  {
    hide Has, Rewritten, ValueOf;
  }

  lemma FinallyRewritten(line: string, f: Flag, name: string, ip: string)
    requires GoodName(name) && GoodIp(ip) && IsRewritten(f)
    ensures var p := Rewritten(line, f, ValueOf(f, name, ip));
            ReplaceLine(ReplaceLine(p, Cluster, ClusterOf(name, ip)), ClusterState, "existing")
            == Rewritten(line, f, FinalValue(f, name, ip))
  {
    hide Has, Rewritten, GoodName, GoodIp, ClusterOf, PeerUrl, ClientUrlList;
    FlagsOfPatched(line, f, name, ip, Cluster);
    FlagsOfPatched(line, f, name, ip, ClusterState);
    RewriteAgain(line, f, ValueOf(f, name, ip), FinalValue(f, name, ip));
  }

  /** A second rewrite for the same flag only changes the value. */
  lemma RewriteAgain(line: string, f: Flag, v: string, w: string)
    requires SolidValue(v)
    ensures Rewritten(Rewritten(line, f, v), f, w) == Rewritten(line, f, w)
  {
    RewrittenKeepsShape(line, f, v);
    hide *;
    RewrittenSplits(Rewritten(line, f, v), f, w);
    RewrittenSplits(line, f, w);
  }

  lemma {:induction false} StripOfPassed(lines: seq<string>, out: seq<string>, name: string, ip: string, widen: bool)
    requires GoodName(name) && GoodIp(ip) && |out| == |lines|
    requires forall i :: 0 <= i < |lines| ==> out[i] == Passed(lines[i], name, ip, widen)
    ensures |Strip(out)| == |Strip(lines)|
    ensures forall i :: 0 <= i < |Strip(out)| ==> Strip(out)[i] == Passed(Strip(lines)[i], name, ip, widen)
  {
    hide *;
    if lines == [] {
      assert out == [];
      StripEnds([]);
    } else {
      assert lines == [lines[0]] + lines[1..] && out == [out[0]] + out[1..];
      PassedIs(lines[0], name, ip, widen);
      StripOfPassed(lines[1..], out[1..], name, ip, widen);
      StripCons(lines[0], lines[1..]);
      StripCons(out[0], out[1..]);
    }
  }

  /** For a good name all of a forced new cluster is one pass: the bare force flags go, and every
      other line is rewritten once. */
  lemma {:induction false} ForcedIsOnePass(lines: seq<string>, name: string, ip: string)
    requires GoodName(name) && GoodIp(ip)
    ensures Forced(lines, name, ip) == Settle(Strip(lines), name, ip, !Wide(Patch(lines, name, ip)))
  {
    hide Strip, Inserted, Replaced, Wide, ReplaceLine, Passed, Settled, PatchLine, ListenLine, Forces, ClusterOf,
      GoodName, GoodIp;
    GoodNameFacts(name);
    ReplacedIsPatched(lines, name, ip);
    var r, widen := Replaced(lines, name, ip), !Wide(Patch(lines, name, ip));
    StripWidenedInserted(r, widen);
    var s := Strip(Widened(r, widen));
    assert Strip(ListenAll(Patch(lines, name, ip))) == s;
    forall i | 0 <= i < |lines| ensures Widened(r, widen)[i] == Passed(lines[i], name, ip, widen) {
      PassedUnfolds(lines[i], name, ip, widen);
    }
    StripOfPassed(lines, Widened(r, widen), name, ip, widen);
    forall i | 0 <= i < |s|
      ensures ReplaceLine(ReplaceLine(s[i], Cluster, ClusterOf(name, ip)), ClusterState, "existing")
           == Settled(Strip(lines)[i], name, ip, widen)
    {
      SettledIs(Strip(lines)[i], name, ip, widen);
    }
  }

  lemma PassedUnfolds(line: string, name: string, ip: string, widen: bool)
    ensures Passed(line, name, ip, widen)
         == if widen then ListenLine(PatchLine(line, name, ip)) else PatchLine(line, name, ip)
  {
  }

  // ----- what the result says

  /** Some line sets the flag, and no flag that is rewritten earlier. */
  predicate Sets(lines: seq<string>, f: Flag) { exists l :: l in lines && Acting(l) == Some(f) }

  lemma SettledFlags(line: string, name: string, ip: string, widen: bool, f: Flag)
    requires GoodName(name) && GoodIp(ip) && IsRewritten(f)
    ensures Has(Settled(line, name, ip, widen), f) <==> Acting(line) == Some(f)
  {
    hide Has, Rewritten, ListenLine, GoodName, GoodIp, ValueOf;
    if Acting(line).Some? {
      FlagsOfPatched(line, Acting(line).value, name, ip, f);
      FlagsOfPlain(line, ClusterState, "existing", f);
    } else {
      ListenLineFlags(line, f);
    }
  }

  lemma {:induction false} ValueOfSettled(lines: seq<string>, name: string, ip: string, widen: bool, f: Flag)
    requires GoodName(name) && GoodIp(ip) && IsRewritten(f) && ReadableValue(FinalValue(f, name, ip))
    ensures FlagValue(Settle(lines, name, ip, widen), f)
         == if Sets(lines, f) then Some(FinalValue(f, name, ip)) else None
  {
    hide Settled, Acting, LineValue, GoodName, GoodIp, FinalValue, ReadableValue, Has, Rewritten;
    if lines != [] {
      var out := Settle(lines, name, ip, widen);
      ValueOfSettled(lines[1..], name, ip, widen, f);
      assert out[1..] == Settle(lines[1..], name, ip, widen);
      SettledFlags(lines[0], name, ip, widen, f);
      NoFlagNoValue(out[0], f);
      RewrittenValue(lines[0], f, FinalValue(f, name, ip));
      SettledUnfolds(lines[0], name, ip, widen);
      SetsCons(lines, f);
    }
  }

  lemma SettledUnfolds(line: string, name: string, ip: string, widen: bool)
    ensures match Acting(line)
            case Some(f) => Settled(line, name, ip, widen) == Rewritten(line, f, FinalValue(f, name, ip))
            case None => true
  {
  }

  lemma SetsCons(lines: seq<string>, f: Flag)
    requires lines != []
    ensures Sets(lines, f) <==> Acting(lines[0]) == Some(f) || Sets(lines[1..], f)
  {
    hide Acting;
    assert lines == [lines[0]] + lines[1..];
  }

  lemma SetsAfterStrip(lines: seq<string>, f: Flag)
    ensures Sets(Strip(lines), f) <==> Sets(lines, f)
  {
    hide Has, Core;
    forall l | l in lines && Acting(l) == Some(f) ensures l in Strip(lines) {
      FlaggedIsNotBare(l, f);
      StripKeeps(lines, l);
    }
    forall l | l in Strip(lines) ensures l in lines {
      StripKeeps(lines, l);
    }
  }

  lemma ForcedValue(lines: seq<string>, name: string, ip: string, f: Flag)
    requires GoodName(name) && GoodIp(ip) && IsRewritten(f) && ReadableValue(FinalValue(f, name, ip))
    ensures FlagValue(Forced(lines, name, ip), f) == if Sets(lines, f) then Some(FinalValue(f, name, ip)) else None
  {
    hide *;
    ForcedIsOnePass(lines, name, ip);
    ValueOfSettled(Strip(lines), name, ip, !Wide(Patch(lines, name, ip)), f);
    SetsAfterStrip(lines, f);
  }

  /** What the next heal, and etcd, read: each flag that a line sets has its new value, every other
      is not there. */
  lemma {:induction false} ForcedManifestSays(lines: seq<string>, name: string, ip: string)
    requires GoodName(name) && GoodIp(ip)
    ensures var out := Forced(lines, name, ip);
            && FlagValue(out, ClientUrls)
               == (if Sets(lines, ClientUrls) then Some("https://" + ip + ":2379,https://127.0.0.1:2379") else None)
            && FlagValue(out, PeerUrls) == (if Sets(lines, PeerUrls) then Some("https://" + ip + ":2380") else None)
            && FlagValue(out, Cluster)
               == (if Sets(lines, Cluster) then Some(name + "=" + ("https://" + ip + ":2380")) else None)
            && FlagValue(out, ClusterState) == (if Sets(lines, ClusterState) then Some("existing") else None)
    ensures name[|name| - 1] != '"'
        ==> FlagValue(Forced(lines, name, ip), Name) == if Sets(lines, Name) then Some(name) else None
  {
    hide FlagValue, Sets, Forced, GoodName, GoodIp, ReadableValue;
    ReadableValues(name, ip);
    ForcedValue(lines, name, ip, ClientUrls);
    ForcedValue(lines, name, ip, PeerUrls);
    ForcedValue(lines, name, ip, Cluster);
    ForcedValue(lines, name, ip, ClusterState);
    if name[|name| - 1] != '"' {
      ForcedValue(lines, name, ip, Name);
    }
  }

  lemma ReadableValues(name: string, ip: string)
    requires GoodName(name) && GoodIp(ip)
    ensures name != "" && (name[|name| - 1] != '"' ==> ReadableValue(FinalValue(Name, name, ip)))
    ensures ReadableValue(FinalValue(ClientUrls, name, ip)) && ReadableValue(FinalValue(PeerUrls, name, ip))
    ensures ReadableValue(FinalValue(Cluster, name, ip)) && ReadableValue(FinalValue(ClusterState, name, ip))
  {
    hide ReadableValue, Stem;
    CleanEnds(name);
    ClusterEnds(name, ip);
    UrlsAreReadable(ip);
    ExistingIsReadable();
  }

  lemma CleanEnds(name: string)
    requires CleanName(name)
    ensures name != "" && (name[|name| - 1] != '"' ==> ReadableValue(name))
  {
    assert InitialCluster.CleanChar(name[0]) && InitialCluster.CleanChar(name[|name| - 1]);
  }

  lemma UrlsAreReadable(ip: string)
    ensures ReadableValue("https://" + ip + ":2379,https://127.0.0.1:2379") && ReadableValue("https://" + ip + ":2380")
  {
    var a, b := "https://" + ip + ":2379,https://127.0.0.1:2379", "https://" + ip + ":2380";
    assert a[0] == 'h' && b[0] == 'h' && a[|a| - 1] == '9' && b[|b| - 1] == '0';
  }

  lemma ExistingIsReadable()
    ensures ReadableValue("existing")
  {
  }

  // ----- the force flag is gone

  lemma ReplacedIsNotBare(line: string, f: Flag, v: string)
    requires Core(line) != FORCE
    ensures Core(ReplaceLine(line, f, v)) != FORCE
  {
    hide Has, Rewritten, Core;
    if Has(line, f) {
      FlagsOfRewritten(line, f, v, f);
      FlaggedIsNotBare(ReplaceLine(line, f, v), f);
    }
  }

  /** No line of a manifest after a forced new cluster is the bare flag, whatever manifest, name and
      address: the next start of etcd does not force again. */
  lemma {:induction false} ForceFlagIsGone(lines: seq<string>, name: string, ip: string)
    ensures forall l :: l in Forced(lines, name, ip) ==> Core(l) != "--force-new-cluster"
  {
    hide Core, ReplaceLine, Patch, ListenAll, Strip, ClusterOf;
    var m := ListenAll(Patch(lines, name, ip));
    var s, out := Strip(m), Forced(lines, name, ip);
    forall l | l in out ensures Core(l) != FORCE {
      var k :| 0 <= k < |out| && out[k] == l;
      assert s[k] in s;
      StripKeeps(m, s[k]);
      ReplacedIsNotBare(s[k], Cluster, ClusterOf(name, ip));
      ReplacedIsNotBare(ReplaceLine(s[k], Cluster, ClusterOf(name, ip)), ClusterState, "existing");
    }
  }

  lemma SettledForces(line: string, name: string, ip: string, widen: bool)
    requires GoodName(name) && GoodIp(ip)
    ensures Forces(Settled(line, name, ip, widen))
       <==> Acting(line).None? && !(widen && Has(line, Listen)) && Forces(line)
  {
    hide Forces, Rewritten, Has, GoodName, GoodIp, ClientUrlList, PeerUrl, Comma;
    if Acting(line).Some? {
      var f := Acting(line).value;
      var v := FinalValue(f, name, ip);
      CommaShape(line);
      if Forces(Rewritten(line, f, v)) {
        ForceInRewritten(line, f, v);
        ExistingHasNoForce(Comma(line));
        ValueHasNoForce(f, name, ip, Comma(line));
      }
    } else {
      ListenHasNoForce(line);
    }
  }

  lemma ExistingHasNoForce(comma: string)
    requires comma == "" || comma == ","
    ensures !Forces("existing" + comma)
  {
    hide Forces;
    NoDashNoForce("existing" + comma);
  }

  lemma ListenHasNoForce(line: string)
    ensures Has(line, Listen) ==> !Forces(ListenLine(line))
    ensures !Has(line, Listen) ==> ListenLine(line) == line
  {
    hide *;
    ListenLineFlags(line, Listen);
    ListenLineIs(line);
    CommaShape(line);
    PrefixIs(line);
    var head, w := Blanks(|line| - |TrimStart(line)|) + Stem(Listen), "https://0.0.0.0:2379" + Comma(line);
    ListenHeadHasNoF(|line| - |TrimStart(line)|);
    ListenValueHasNoDash(Comma(line));
    NoDashNoForce(w);
    if Has(line, Listen) && Forces(ListenLine(line)) {
      ForcesIs(ListenLine(line));
      var j: nat :| j <= |ListenLine(line)| && OccursAt(ListenLine(line), FORCE, j);
      ForceBehindHead(head, w, j);
    }
  }

  lemma ForcesIs(s: string)
    requires Forces(s)
    ensures exists j: nat :: j <= |s| && OccursAt(s, FORCE, j)
  {
    hide OccursAt;
  }

  lemma ListenHeadHasNoF(n: nat)
    ensures NoF(Blanks(n) + Stem(Listen))
  {
  }

  lemma ListenValueHasNoDash(comma: string)
    ensures comma == "" || comma == "," ==> '-' !in "https://0.0.0.0:2379" + comma
  {
  }

  /** For a good name no line even mentions the flag, exactly if every line that did and was not
      rewritten was the bare flag. */
  lemma {:induction false} ForceIsNotMentioned(lines: seq<string>, name: string, ip: string)
    requires GoodName(name) && GoodIp(ip)
    ensures (forall l :: l in Forced(lines, name, ip) ==> !Contains(l, "--force-new-cluster"))
       <==> forall l :: (l in lines && Acting(l).None? && (Has(l, Listen) ==> Wide(Patch(lines, name, ip)))
                         && Contains(l, "--force-new-cluster")) ==> Core(l) == "--force-new-cluster"
  {
    hide Forces, Has, Core, Acting, Settled, Strip, Wide, Patch, GoodName, GoodIp, Forced, Contains;
    var widen, s, out := !Wide(Patch(lines, name, ip)), Strip(lines), Forced(lines, name, ip);
    ForcedIsOnePass(lines, name, ip);
    forall l ensures Contains(l, FORCE) <==> Forces(l) {
      ContainsForces(l);
    }
    forall l ensures l in s <==> l in lines && Core(l) != FORCE {
      StripKeeps(lines, l);
    }
    forall i | 0 <= i < |s|
      ensures Forces(out[i]) <==> Acting(s[i]).None? && !(widen && Has(s[i], Listen)) && Forces(s[i])
    {
      SettledForces(s[i], name, ip, widen);
    }
    if l :| l in lines && Acting(l).None? && (Has(l, Listen) ==> !widen) && Forces(l) && Core(l) != FORCE {
      var i :| 0 <= i < |s| && s[i] == l;
      assert out[i] in out && Forces(out[i]);
    }
    if l :| l in out && Forces(l) {
      var i :| 0 <= i < |out| && out[i] == l;
      assert s[i] in s && s[i] in lines;
    }
  }

  // ----- a manifest as the generator prints it

  /** A value that no rewrite takes for a flag, and that is not followed by a comma. */
  predicate PlainValue(v: string) { SolidValue(v) && forall f: Flag :: !Has(v, f) }

  /** A list item at indent `n` that sets a flag. */
  function ItemLine(n: nat, f: Flag, v: string): string { Blanks(n) + "- " + FlagText(f) + v }

  /** Rewriting such an item only changes its value. */
  lemma ItemIsRewritten(n: nat, f: Flag, v: string, w: string)
    requires PlainValue(v)
    ensures forall g: Flag :: Has(ItemLine(n, f, v), g) <==> g == f
    ensures Rewritten(ItemLine(n, f, v), f, w) == ItemLine(n, f, w)
  {
    hide Has, Stem, SolidValue, Rewritten;
    var proto := Blanks(n) + "- " + "--x";
    ProtoShape(n, proto);
    hide Prefix, Comma;
    assert ItemLine(n, f, v) == Rewritten(proto, f, v) by { RewrittenSplits(proto, f, v); NoTail(ItemLine(n, f, v)); }
    RewrittenKeepsShape(proto, f, v);
    RewrittenSplits(ItemLine(n, f, v), f, w);
    NoTail(ItemLine(n, f, w));
    NoTail(v);
    forall g: Flag ensures Has(ItemLine(n, f, v), g) <==> g == f {
      FlagsOfRewritten(proto, f, v, g);
    }
  }

  lemma NoTail(s: string)
    ensures s + "" == s
  {
  }

  lemma ProtoShape(n: nat, proto: string)
    requires proto == Blanks(n) + "- " + "--x"
    ensures Prefix(proto) == Blanks(n) + "- " && Comma(proto) == ""
  {
    hide Prefix, Comma, TrimLeft, TrimRight;
    var body := "- " + "--x";
    assert proto == Blanks(n) + body && body[0] == '-' && body[..2] == "- ";
    BlanksGo(n, body);
    PrefixIs(proto);
    assert |proto| - |body| == n;
    ProtoComma(proto);
  }

  lemma ProtoComma(s: string)
    requires s != "" && s[|s| - 1] == 'x'
    ensures Comma(s) == ""
  {
  }

  lemma ItemIsSettled(n: nat, f: Flag, v: string, name: string, ip: string, widen: bool)
    requires PlainValue(v) && (IsRewritten(f) || f == DataDir)
    ensures Settled(ItemLine(n, f, v), name, ip, widen)
         == if f == DataDir then ItemLine(n, f, v) else ItemLine(n, f, FinalValue(f, name, ip))
    ensures Core(ItemLine(n, f, v)) != FORCE
  {
    hide Has, ItemLine, PlainValue, Rewritten, FinalValue, Core;
    ItemIsRewritten(n, f, v, FinalValue(f, name, ip));
    FlaggedIsNotBare(ItemLine(n, f, v), f);
    ListenLineFlags(ItemLine(n, f, v), Listen);
  }

  /** The command of a generated manifest, for any indent and old values: the healed one says the
      new name and addresses, its state is existing, and everything else is as it was. */
  lemma {:induction false} GeneratedManifestIsSettled(n: nat, urls: string, dir: string, peer: string, list: string,
                                                      state: string, was: string, name: string, ip: string)
    requires GoodName(name) && GoodIp(ip)
    requires PlainValue(urls) && PlainValue(dir) && PlainValue(peer) && PlainValue(list) && PlainValue(state)
    requires PlainValue(was)
    ensures var item := Blanks(n) + "- ";
            Forced([item + "--advertise-client-urls=" + urls,
                    item + "--data-dir=" + dir,
                    item + "--initial-advertise-peer-urls=" + peer,
                    item + "--initial-cluster=" + list,
                    item + "--initial-cluster-state=" + state,
                    item + "--name=" + was], name, ip)
            == [item + "--advertise-client-urls=" + ("https://" + ip + ":2379,https://127.0.0.1:2379"),
                item + "--data-dir=" + dir,
                item + "--initial-advertise-peer-urls=" + ("https://" + ip + ":2380"),
                item + "--initial-cluster=" + (name + "=" + ("https://" + ip + ":2380")),
                item + "--initial-cluster-state=" + "existing",
                item + "--name=" + name]
  {
    hide *;
    var widen := !Wide(Patch(Items(n, urls, dir, peer, list, state, was), name, ip));
    ItemTexts(n, urls, dir, peer, list, state, was);
    ItemTexts(n, "https://" + ip + ":2379,https://127.0.0.1:2379", dir, "https://" + ip + ":2380",
      name + "=" + ("https://" + ip + ":2380"), "existing", name);
    ForcedIsOnePass(Items(n, urls, dir, peer, list, state, was), name, ip);
    ItemsSettled(n, urls, dir, peer, list, state, was, name, ip, widen);
  }

  function Items(n: nat, urls: string, dir: string, peer: string, list: string, state: string, was: string)
    : seq<string>
  {
    [ItemLine(n, ClientUrls, urls), ItemLine(n, DataDir, dir), ItemLine(n, PeerUrls, peer),
     ItemLine(n, Cluster, list), ItemLine(n, ClusterState, state), ItemLine(n, Name, was)]
  }

  lemma ItemTexts(n: nat, urls: string, dir: string, peer: string, list: string, state: string, was: string)
    ensures var item := Blanks(n) + "- ";
            Items(n, urls, dir, peer, list, state, was)
            == [item + "--advertise-client-urls=" + urls, item + "--data-dir=" + dir,
                item + "--initial-advertise-peer-urls=" + peer, item + "--initial-cluster=" + list,
                item + "--initial-cluster-state=" + state, item + "--name=" + was]
  {
    hide Blanks, Stem;
    FirstFlagTexts();
    LastFlagTexts();
  }

  lemma FirstFlagTexts()
    ensures FlagText(ClientUrls) == "--advertise-client-urls=" && FlagText(DataDir) == "--data-dir="
    ensures FlagText(PeerUrls) == "--initial-advertise-peer-urls="
  {
  }

  lemma LastFlagTexts()
    ensures FlagText(Cluster) == "--initial-cluster=" && FlagText(ClusterState) == "--initial-cluster-state="
    ensures FlagText(Name) == "--name="
  {
  }

  lemma FinalValues(name: string, ip: string)
    ensures FinalValue(ClientUrls, name, ip) == "https://" + ip + ":2379,https://127.0.0.1:2379"
    ensures FinalValue(PeerUrls, name, ip) == "https://" + ip + ":2380"
    ensures FinalValue(Cluster, name, ip) == name + "=" + ("https://" + ip + ":2380")
    ensures FinalValue(ClusterState, name, ip) == "existing" && FinalValue(Name, name, ip) == name
  {
  }

  lemma ItemsSettled(n: nat, urls: string, dir: string, peer: string, list: string, state: string, was: string,
                     name: string, ip: string, widen: bool)
    requires PlainValue(urls) && PlainValue(dir) && PlainValue(peer) && PlainValue(list) && PlainValue(state)
    requires PlainValue(was)
    ensures Settle(Strip(Items(n, urls, dir, peer, list, state, was)), name, ip, widen)
         == Items(n, "https://" + ip + ":2379,https://127.0.0.1:2379", dir, "https://" + ip + ":2380",
                  name + "=" + ("https://" + ip + ":2380"), "existing", name)
  {
    hide PlainValue, ItemLine, Settled, FinalValue, Core, Strip;
    var items := Items(n, urls, dir, peer, list, state, was);
    ItemIsSettled(n, ClientUrls, urls, name, ip, widen);
    ItemIsSettled(n, DataDir, dir, name, ip, widen);
    ItemIsSettled(n, PeerUrls, peer, name, ip, widen);
    ItemIsSettled(n, Cluster, list, name, ip, widen);
    ItemIsSettled(n, ClusterState, state, name, ip, widen);
    ItemIsSettled(n, Name, was, name, ip, widen);
    StripNothing(items);
    FinalValues(name, ip);
  }

  /** The same command right after the patch: its state is new, and the flag stands behind the data
      directory, as an item of its own. */
  lemma {:induction false} GeneratedManifestIsPatched(n: nat, urls: string, dir: string, peer: string, list: string,
                                                      state: string, was: string, name: string, ip: string)
    requires GoodName(name) && GoodIp(ip)
    requires PlainValue(urls) && PlainValue(dir) && PlainValue(peer) && PlainValue(list) && PlainValue(state)
    requires PlainValue(was) && !Forces(ItemLine(n, DataDir, dir))
    ensures var item := Blanks(n) + "- ";
            Patch([item + "--advertise-client-urls=" + urls,
                   item + "--data-dir=" + dir,
                   item + "--initial-advertise-peer-urls=" + peer,
                   item + "--initial-cluster=" + list,
                   item + "--initial-cluster-state=" + state,
                   item + "--name=" + was], name, ip)
            == [item + "--advertise-client-urls=" + ("https://" + ip + ":2379,https://127.0.0.1:2379"),
                item + "--data-dir=" + dir,
                item + "--force-new-cluster",
                item + "--initial-advertise-peer-urls=" + ("https://" + ip + ":2380"),
                item + "--initial-cluster=" + (name + "=" + ("https://" + ip + ":2380")),
                item + "--initial-cluster-state=" + "new",
                item + "--name=" + name]
  {
    hide *;
    GoodPasses(name);
    var items := Items(n, urls, dir, peer, list, state, was);
    var out := Items(n, "https://" + ip + ":2379,https://127.0.0.1:2379", dir, "https://" + ip + ":2380",
      name + "=" + ("https://" + ip + ":2380"), "new", name);
    ItemsAre(n, "https://" + ip + ":2379,https://127.0.0.1:2379", dir, "https://" + ip + ":2380",
      name + "=" + ("https://" + ip + ":2380"), "new", name);
    ItemTexts(n, urls, dir, peer, list, state, was);
    ItemTexts(n, "https://" + ip + ":2379,https://127.0.0.1:2379", dir, "https://" + ip + ":2380",
      name + "=" + ("https://" + ip + ":2380"), "new", name);
    ReplacedIsPatched(items, name, ip);
    ItemsPatched(n, urls, dir, peer, list, state, was, name, ip);
    ItemsAre(n, urls, dir, peer, list, state, was);
    assert Replaced(items, name, ip) == out;
    ItemsForceNothing(items, name, ip, n, dir);
    EnsureInserts(Replaced(items, name, ip));
    ItemsStart(n, dir, out, ip);
    InsertedBehindDataDir(n, dir, out);
    PatchIs(items, name, ip);
    ItemForceLine(n, dir);
    assert Patch(items, name, ip) == [out[0], out[1], Blanks(n) + "- " + "--force-new-cluster"] + out[2..];
  }

  lemma GoodPasses(name: string)
    requires GoodName(name)
    ensures PassesName(name)
  {
    GoodNameFacts(name);
  }

  lemma ItemsAre(n: nat, urls: string, dir: string, peer: string, list: string, state: string, was: string)
    ensures var items := Items(n, urls, dir, peer, list, state, was);
            |items| == 6 && items[0] == ItemLine(n, ClientUrls, urls) && items[1] == ItemLine(n, DataDir, dir)
  {
    hide ItemLine;
  }

  lemma ItemsStart(n: nat, dir: string, out: seq<string>, ip: string)
    requires GoodIp(ip) && PlainValue(dir) && |out| == 6 && out[1] == ItemLine(n, DataDir, dir)
    requires out[0] == ItemLine(n, ClientUrls, "https://" + ip + ":2379,https://127.0.0.1:2379")
    ensures !Has(out[0], DataDir) && Has(out[1], DataDir)
  {
    hide Has, ItemLine, NoEq, SolidValue, Rewritten;
    var urls := ClientUrlList(ip);
    UrlFacts(ip);
    NoEqNoFlags(urls);
    ItemIsRewritten(n, ClientUrls, urls, urls);
    ItemIsRewritten(n, DataDir, dir, dir);
  }

  lemma PatchIs(lines: seq<string>, name: string, ip: string)
    ensures Patch(lines, name, ip) == Ensure(Replaced(lines, name, ip))
  {
    hide Replaced, Ensure;
  }

  lemma EnsureInserts(lines: seq<string>)
    requires forall i :: 0 <= i < |lines| ==> !Forces(lines[i])
    ensures Ensure(lines) == Inserted(lines)
  {
    hide Forces, Inserted;
  }

  lemma ItemsForceNothing(items: seq<string>, name: string, ip: string, n: nat, dir: string)
    requires GoodName(name) && GoodIp(ip) && PlainValue(dir) && !Forces(ItemLine(n, DataDir, dir))
    requires forall i :: 0 <= i < |items| ==> Acting(items[i]).Some? || items[i] == ItemLine(n, DataDir, dir)
    ensures |Replaced(items, name, ip)| == |items|
    ensures forall i :: 0 <= i < |items| ==> !Forces(Replaced(items, name, ip)[i])
  {
    hide *;
    GoodPasses(name);
    ReplacedIsPatched(items, name, ip);
    forall i | 0 <= i < |items| ensures !Forces(Replaced(items, name, ip)[i]) {
      PatchedLineForces(items[i], name, ip);
    }
  }

  lemma ItemActs(n: nat, f: Flag, v: string)
    requires PlainValue(v) && (IsRewritten(f) || f == DataDir)
    ensures Acting(ItemLine(n, f, v)) == if f == DataDir then None else Some(f)
  {
    hide Has, ItemLine, PlainValue;
    ItemIsRewritten(n, f, v, v);
  }

  lemma ItemIsPatched(n: nat, f: Flag, v: string, name: string, ip: string)
    requires PlainValue(v) && (IsRewritten(f) || f == DataDir)
    ensures PatchLine(ItemLine(n, f, v), name, ip)
         == if f == DataDir then ItemLine(n, f, v) else ItemLine(n, f, ValueOf(f, name, ip))
  {
    hide Has, ItemLine, PlainValue, Rewritten, ValueOf, Acting;
    ItemActs(n, f, v);
    ItemIsRewritten(n, f, v, ValueOf(f, name, ip));
  }

  lemma ItemsPatched(n: nat, urls: string, dir: string, peer: string, list: string, state: string, was: string,
                     name: string, ip: string)
    requires PlainValue(urls) && PlainValue(dir) && PlainValue(peer) && PlainValue(list) && PlainValue(state)
    requires PlainValue(was)
    ensures var items := Items(n, urls, dir, peer, list, state, was);
            var out := Items(n, "https://" + ip + ":2379,https://127.0.0.1:2379", dir, "https://" + ip + ":2380",
                             name + "=" + ("https://" + ip + ":2380"), "new", name);
            && (forall i :: 0 <= i < 6 ==> PatchLine(items[i], name, ip) == out[i])
            && (forall i :: 0 <= i < 6 ==> Acting(items[i]).Some? || items[i] == ItemLine(n, DataDir, dir))
  {
    hide PlainValue, ItemLine, PatchLine, Acting, ValueOf;
    ItemIsPatched(n, ClientUrls, urls, name, ip);
    ItemIsPatched(n, DataDir, dir, name, ip);
    ItemIsPatched(n, PeerUrls, peer, name, ip);
    ItemIsPatched(n, Cluster, list, name, ip);
    ItemIsPatched(n, ClusterState, state, name, ip);
    ItemIsPatched(n, Name, was, name, ip);
    ItemActs(n, ClientUrls, urls);
    ItemActs(n, PeerUrls, peer);
    ItemActs(n, Cluster, list);
    ItemActs(n, ClusterState, state);
    ItemActs(n, Name, was);
    PatchValues(name, ip);
  }

  lemma PatchValues(name: string, ip: string)
    ensures ValueOf(ClientUrls, name, ip) == "https://" + ip + ":2379,https://127.0.0.1:2379"
    ensures ValueOf(PeerUrls, name, ip) == "https://" + ip + ":2380"
    ensures ValueOf(Cluster, name, ip) == name + "=" + ("https://" + ip + ":2380")
    ensures ValueOf(ClusterState, name, ip) == "new" && ValueOf(Name, name, ip) == name
  {
  }

  lemma InsertedBehindDataDir(n: nat, dir: string, out: seq<string>)
    requires |out| == 6 && !Has(out[0], DataDir) && out[1] == ItemLine(n, DataDir, dir) && Has(out[1], DataDir)
    ensures Inserted(out) == [out[0], out[1], ForceLine(out[1])] + out[2..]
  {
    hide *;
    assert out == [out[0]] + out[1..] && out[1..] == [out[1]] + out[2..];
    InsertedCons(out[0], out[1..]);
    InsertedCons(out[1], out[2..]);
  }

  /** The flag behind an item is an item at the same indent. */
  lemma ItemForceLine(n: nat, dir: string)
    requires PlainValue(dir)
    ensures ForceLine(ItemLine(n, DataDir, dir)) == Blanks(n) + "- " + "--force-new-cluster"
  {
    hide Has, Stem, SolidValue, Rewritten;
    var proto := Blanks(n) + "- " + "--x";
    ProtoShape(n, proto);
    hide Prefix, Comma;
    assert ItemLine(n, DataDir, dir) == Rewritten(proto, DataDir, dir) by {
      RewrittenSplits(proto, DataDir, dir);
      NoTail(ItemLine(n, DataDir, dir));
    }
    RewrittenKeepsShape(proto, DataDir, dir);
    NoTail(Blanks(n) + "- " + FORCE);
  }

  // ----- values in quotes

  /** A quoted value, as hand-written manifests have it, is read without its quotes and the comma. */
  lemma {:induction false} QuotedValueIsRead(v: string)
    requires v != "" && v[0] !in WHITESPACE && v[0] != '"' && v[|v| - 1] !in {'"', ',', ' '}
    ensures ValueAfter(" \"" + v + "\", ") == v
  {
    hide *;
    var quoted := "\"" + v + "\",";
    QuotedShape(v, quoted);
    TrimLeftPadded("\"", v + "\",", {'"'});
    TrimRightPadded(v, "\",", {'"', ',', ' '});
    ValueAfterIs(" \"" + v + "\", ");
  }

  lemma QuotedShape(v: string, quoted: string)
    requires v != "" && v[0] != '"' && quoted == "\"" + v + "\","
    ensures Trim(" \"" + v + "\", ") == quoted && quoted == "\"" + (v + "\",") && (v + "\",")[0] != '"'
    ensures (forall c :: c in "\"" ==> c in {'"'}) && (forall c :: c in "\"," ==> c in {'"', ',', ' '})
  {
    hide TrimLeft, TrimRight;
    assert " \"" + v + "\", " == " " + (quoted + " ") && quoted[0] == '"' && quoted[|quoted| - 1] == ',';
    assert (quoted + " ")[0] == '"';
    TrimLeftPadded(" ", quoted + " ", WHITESPACE);
    TrimRightPadded(quoted, " ", WHITESPACE);
  }

  // ----- the listen rewrite

  /** Widening the listen address drops the list marker: the line keeps its prefix, and so stays an
      item of the command, iff it had no marker. */
  lemma {:induction false} ListenLosesTheMarker(line: string)
    requires Has(line, Listen)
    ensures !("- " <= TrimStart(ListenLine(line)))
    ensures Prefix(ListenLine(line)) == Prefix(line) <==> !("- " <= TrimStart(line))
  {
    hide *;
    PrefixIs(line);
    var n := |line| - |TrimStart(line)|;
    var body := Stem(Listen) + "=" + ("https://0.0.0.0:2379" + Comma(line));
    ListenLineIs(line);
    assert ListenLine(line) == Blanks(n) + body;
    StemStart(Listen);
    assert body[0] == Stem(Listen)[0] && body[1] == Stem(Listen)[1];
    BlanksGo(n, body);
    MarkerShows("", body);
    assert "" + body == body;
    PrefixIs(ListenLine(line));
    BlanksSize(n);
  }

  lemma BlanksSize(n: nat)
    ensures |Blanks(n)| == n
  {
  }

  // ----- who forces, and when

  /** In a complete cluster of one to nine nodes whose addresses are still those of the list, only
      the first node forces a new cluster, and only if there are at least three; a node whose
      address is marked as changed forces without that bound. */
  lemma {:induction false} OnlyTheFirstOfThreeForces(lines: seq<string>, cluster: string,
                                                     eps: seq<InitialCluster.Endpoint>, i: nat, localUp: bool)
    requires InitialCluster.CleanCluster(cluster) && 1 <= i <= |eps| <= 9
    requires forall k :: 0 <= k < |eps| ==> InitialCluster.CleanEndpoint(eps[k])
    requires FlagValue(lines, Name) == Some(InitialCluster.Node(cluster, i))
    requires FlagValue(lines, Cluster) == Some(InitialCluster.FullList(cluster, eps, i))
    ensures HealForces(lines, eps[i - 1].host, false, localUp) <==> localUp && i == 1 && |eps| >= 3
    ensures HealForces(lines, eps[i - 1].host, true, localUp) <==> localUp && i == 1
  {
    hide FlagValue, InitialCluster.Parse, InitialCluster.IsHealLeader, InitialCluster.CleanEndpoint,
      InitialCluster.Node, InitialCluster.CleanCluster, Trim, InitialCluster.FullList;
    InitialCluster.OneHealerUpToNine(cluster, eps);
    InitialCluster.FullListIsRead(cluster, eps, i);
    HostIsTrimmed(eps[i - 1]);
  }

  lemma HostIsTrimmed(e: InitialCluster.Endpoint)
    requires InitialCluster.CleanEndpoint(e)
    ensures e.host != "" && Trim(e.host) == e.host
  {
    hide Trim;
    assert InitialCluster.CleanChar(e.host[0]) && InitialCluster.CleanChar(e.host[|e.host| - 1]);
    TrimKeeps(e.host);
  }
}
