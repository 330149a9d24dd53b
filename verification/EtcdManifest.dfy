/** Rewriting the etcd static-pod manifest for a forced new cluster and back
    (`crates/pertisk-bootstrap/src/etcd_backup.rs`). A manifest is its sequence of lines. */
module EtcdManifest {
  import opened Text
  import InitialCluster

  // ----- flags

  /** The command-line flags that the code looks for or that share a line format with them. */
  datatype Flag = Name | ClientUrls | PeerUrls | Cluster | ClusterState | Listen | DataDir

  /** The flag up to, and not including, its equals sign. */
  function Stem(f: Flag): string {
    match f
    case Name => "--name"
    case ClientUrls => "--advertise-client-urls"
    case PeerUrls => "--initial-advertise-peer-urls"
    case Cluster => "--initial-cluster"
    case ClusterState => "--initial-cluster-state"
    case Listen => "--listen-client-urls"
    case DataDir => "--data-dir"
  }

  function FlagText(f: Flag): string { Stem(f) + "=" }

  const FORCE: string := "--force-new-cluster"

  predicate Has(line: string, f: Flag) { Contains(line, FlagText(f)) }

  // ----- replacing a flag

  /** Indent of a line, and its list marker if it has one (`yaml_list_prefix`). */
  function Prefix(line: string): string {
    var start := TrimStart(line);
    Blanks(|line| - |start|) + if "- " <= start then "- " else ""
  }

  function Comma(line: string): string {
    if EndsWith(TrimEnd(line), ",") then "," else ""
  }

  function Rewritten(line: string, f: Flag, value: string): string {
    Prefix(line) + FlagText(f) + value + Comma(line)
  }

  function ReplaceLine(line: string, f: Flag, value: string): string {
    if Has(line, f) then Rewritten(line, f, value) else line
  }

  function Replace(lines: seq<string>, f: Flag, value: string): (r: seq<string>)
    ensures |r| == |lines|
    ensures forall i :: 0 <= i < |r| ==> r[i] == ReplaceLine(lines[i], f, value)
  {
    seq(|lines|, i requires 0 <= i < |lines| => ReplaceLine(lines[i], f, value))
  }

  method ReplaceCommandFlag(lines: seq<string>, f: Flag, value: string) returns (out: seq<string>)
    ensures out == Replace(lines, f, value)
  {
    hide ReplaceLine, Rewritten;
    out := [];
    for k := 0 to |lines|
      invariant |out| == k && forall i :: 0 <= i < k ==> out[i] == ReplaceLine(lines[i], f, value)
    {
      out := out + [ReplaceLine(lines[k], f, value)];
    }
  }

  // ----- the force flag

  predicate Forces(line: string) { Contains(line, FORCE) }

  function ForceLine(line: string): string { Prefix(line) + FORCE + Comma(line) }

  const DEFAULT_FORCE_LINE: string := "        - --force-new-cluster"

  /** Put the flag after the first data-dir line, else at the end. */
  function Inserted(lines: seq<string>): seq<string> {
    if lines == [] then [DEFAULT_FORCE_LINE]
    else if Has(lines[0], DataDir) then [lines[0], ForceLine(lines[0])] + lines[1..]
    else [lines[0]] + Inserted(lines[1..])
  }

  function Ensure(lines: seq<string>): seq<string> {
    if exists i :: 0 <= i < |lines| && Forces(lines[i]) then lines else Inserted(lines)
  }

  method EnsureForceNewClusterFlag(lines: seq<string>) returns (out: seq<string>)
    ensures out == Ensure(lines)
  {
    hide Inserted, Forces;
    if exists i :: 0 <= i < |lines| && Forces(lines[i]) {
      return lines;
    }
    out := InsertForceLine(lines);
  }

  method InsertForceLine(lines: seq<string>) returns (out: seq<string>)
    ensures out == Inserted(lines)
  {
    hide *;
    out := [];
    var inserted := false;
    TodoEnds(lines);
    for k := 0 to |lines|
      invariant out + Todo(lines, k, inserted) == Inserted(lines)
    {
      TodoStep(out, lines, k, inserted);
      out := out + [lines[k]];
      if !inserted && Has(lines[k], DataDir) {
        out := out + [ForceLine(lines[k])];
        inserted := true;
      }
    }
    if !inserted {
      out := out + [DEFAULT_FORCE_LINE];
    }
  }

  lemma TodoEnds(lines: seq<string>)
    ensures Todo(lines, 0, false) == Inserted(lines)
    ensures Todo(lines, |lines|, true) == [] && Todo(lines, |lines|, false) == [DEFAULT_FORCE_LINE]
    ensures [] + Todo(lines, 0, false) == Todo(lines, 0, false)
  {
    hide Has, ForceLine;
    assert lines[0..] == lines;
  }

  ghost function Todo(lines: seq<string>, k: nat, inserted: bool): seq<string>
    requires k <= |lines|
  {
    if inserted then lines[k..] else Inserted(lines[k..])
  }

  lemma TodoStep(out: seq<string>, lines: seq<string>, k: nat, inserted: bool)
    requires k < |lines|
    ensures var here := !inserted && Has(lines[k], DataDir);
            out + Todo(lines, k, inserted)
            == out + [lines[k]] + (if here then [ForceLine(lines[k])] else []) + Todo(lines, k + 1, inserted || here)
  {
    hide Has, ForceLine;
    assert lines[k..][1..] == lines[k + 1..];
  }

  /** The line without list marker, quotes, commas and blanks around it. */
  function Core(line: string): string {
    TrimRight(TrimLeft(TrimPrefixes(TrimStart(line), "- "), {'"'}), {'"', ',', ' '})
  }

  function Strip(lines: seq<string>): seq<string> {
    if lines == [] then []
    else (if Core(lines[0]) == FORCE then [] else [lines[0]]) + Strip(lines[1..])
  }

  method StripForceNewClusterFlag(lines: seq<string>) returns (out: seq<string>)
    ensures out == Strip(lines)
  {
    hide *;
    out := [];
    StripEnds(lines);
    for k := 0 to |lines|
      invariant out + Strip(lines[k..]) == Strip(lines)
    {
      StripStep(out, lines, k);
      if Core(lines[k]) == FORCE {
        continue;
      }
      out := out + [lines[k]];
    }
  }

  lemma StripEnds(lines: seq<string>)
    ensures [] + Strip(lines[0..]) == Strip(lines) && Strip(lines[|lines|..]) == []
  {
    hide Core;
    assert lines[0..] == lines && lines[|lines|..] == [];
    assert [] + Strip(lines) == Strip(lines);
  }

  lemma StripStep(out: seq<string>, lines: seq<string>, k: nat)
    requires k < |lines|
    ensures out + Strip(lines[k..])
         == (if Core(lines[k]) == FORCE then out else out + [lines[k]]) + Strip(lines[k + 1..])
  {
    hide *;
    assert lines[k..] == [lines[k]] + lines[k + 1..];
    StripCons(lines[k], lines[k + 1..]);
    assert out + ([lines[k]] + Strip(lines[k + 1..])) == out + [lines[k]] + Strip(lines[k + 1..]);
  }

  // ----- reading a flag

  function ValueAfter(rest: string): string {
    TrimRight(TrimLeft(Trim(rest), {'"'}), {'"', ',', ' '})
  }

  function LineValue(line: string, f: Flag): Option<string> {
    match Find(line, FlagText(f))
    case None => None
    case Some(i) =>
      var v := ValueAfter(line[i + |FlagText(f)|..]);
      if v == "" then None else Some(v)
  }

  function FlagValue(lines: seq<string>, f: Flag): Option<string> {
    if lines == [] then None
    else
      match LineValue(lines[0], f)
      case Some(v) => Some(v)
      case None => FlagValue(lines[1..], f)
  }

  method EtcdFlagValue(lines: seq<string>, f: Flag) returns (r: Option<string>)
    ensures r == FlagValue(lines, f)
  {
    hide LineValue;
    for k := 0 to |lines|
      invariant FlagValue(lines[k..], f) == FlagValue(lines, f)
    {
      assert lines[k..][1..] == lines[k + 1..];
      var v := LineValue(lines[k], f);
      if v.Some? {
        return v;
      }
    }
    return None;
  }

  // ----- the rewrites of a forced new cluster

  function PeerUrl(ip: string): string { "https://" + ip + ":2380" }

  function ClientUrlList(ip: string): string { "https://" + ip + ":2379,https://127.0.0.1:2379" }

  function ClusterOf(name: string, ip: string): string { name + "=" + PeerUrl(ip) }

  function Replaced(lines: seq<string>, name: string, ip: string): seq<string> {
    Replace(Replace(Replace(Replace(Replace(lines,
      Name, name),
      ClientUrls, ClientUrlList(ip)),
      PeerUrls, PeerUrl(ip)),
      Cluster, ClusterOf(name, ip)),
      ClusterState, "new")
  }

  /** `patch_etcd_manifest_force_new_cluster`. */
  function Patch(lines: seq<string>, name: string, ip: string): seq<string> {
    Ensure(Replaced(lines, name, ip))
  }

  /** `finalize_etcd_manifest_after_force_new`. */
  function Finalize(lines: seq<string>, name: string, ip: string): seq<string> {
    Replace(Replace(Strip(lines), Cluster, ClusterOf(name, ip)), ClusterState, "existing")
  }

  // ----- the listen addresses (`ensure_etcd_listen_all` in `crates/pertisk-bootstrap/src/lib.rs`)

  const LISTEN_ALL: string := "--listen-client-urls=https://0.0.0.0:2379"
  const LISTEN_LOCAL: string := "--listen-client-urls=https://127.0.0.1:2379"

  function ListenLine(line: string): string {
    if Has(line, Listen) then Blanks(|line| - |TrimStart(line)|) + LISTEN_ALL + Comma(line) else line
  }

  function ListenLines(lines: seq<string>): (r: seq<string>)
    ensures |r| == |lines| && forall i :: 0 <= i < |r| ==> r[i] == ListenLine(lines[i])
  {
    seq(|lines|, i requires 0 <= i < |lines| => ListenLine(lines[i]))
  }

  /** Nothing to widen. */
  predicate Wide(lines: seq<string>) {
    && (exists i :: 0 <= i < |lines| && Contains(lines[i], LISTEN_ALL))
    && !(exists i :: 0 <= i < |lines| && Contains(lines[i], LISTEN_LOCAL))
  }

  function ListenAll(lines: seq<string>): seq<string> {
    if Wide(lines) then lines else ListenLines(lines)
  }

  method EnsureEtcdListenAll(lines: seq<string>) returns (out: seq<string>)
    ensures out == ListenAll(lines)
  {
    hide Contains, ListenLine;
    if (exists i :: 0 <= i < |lines| && Contains(lines[i], LISTEN_ALL))
       && !(exists i :: 0 <= i < |lines| && Contains(lines[i], LISTEN_LOCAL)) {
      return lines;
    }
    out := [];
    for k := 0 to |lines|
      invariant |out| == k && forall i :: 0 <= i < k ==> out[i] == ListenLine(lines[i])
    {
      out := out + [ListenLine(lines[k])];
    }
    assert out == ListenLines(lines);
  }

  // ----- where a flag can stand in a rewritten line

  predicate NoEq(s: string) { forall i :: 0 <= i < |s| ==> s[i] != '=' }

  lemma CharOf(s: string, t: string, j: nat, k: nat)
    requires OccursAt(s, t, j) && k < |t|
    ensures s[j + k] == t[k]
  {
    assert s[j..j + |t|][k] == s[j + k];
  }

  lemma StemHasNoEq(f: Flag)
    ensures NoEq(Stem(f)) && |Stem(f)| >= 6
  {
    hide Stem;
    if f.Name? || f.ClientUrls? || f.PeerUrls? {
      FirstStemsHaveNoEq(f);
    } else {
      LastStemsHaveNoEq(f);
    }
  }

  lemma FirstStemsHaveNoEq(f: Flag)
    requires f.Name? || f.ClientUrls? || f.PeerUrls?
    ensures NoEq(Stem(f)) && |Stem(f)| >= 6
  {
  }

  lemma LastStemsHaveNoEq(f: Flag)
    requires f.Cluster? || f.ClusterState? || f.Listen? || f.DataDir?
    ensures NoEq(Stem(f)) && |Stem(f)| >= 6
  {
  }

  /** In `a=b`, with no other equals sign in `a`, a flag is at the end of `a` or in `b`. */
  lemma FlagPlace(a: string, b: string, f: Flag, j: nat)
    requires NoEq(a) && OccursAt(a + "=" + b, FlagText(f), j)
    ensures j + |Stem(f)| == |a| || j > |a|
  {
    hide Stem;
    var s, t := a + "=" + b, FlagText(f);
    StemHasNoEq(f);
    CharOf(s, t, j, |Stem(f)|);
    if j <= |a| < j + |t| {
      CharOf(s, t, j, |a| - j);
    }
  }

  lemma OccursInMiddle(x: string, t: string, y: string)
    ensures OccursAt(x + t + y, t, |x|) && Contains(x + t + y, t)
  {
    assert (x + t + y)[|x|..|x| + |t|] == t;
    assert OccursAt(x + t + y, t, |x|);
  }

  lemma OccursSplits(s: string, t: string, j: nat)
    requires OccursAt(s, t, j)
    ensures j + |t| <= |s| && s == s[..j] + t + s[j + |t|..]
  {
  }

  /** A flag occurs in `a=b` iff `a` ends in its stem or it occurs in `b`. */
  lemma FlagInPair(a: string, b: string, f: Flag)
    requires NoEq(a)
    ensures Has(a + "=" + b, f) <==> EndsWith(a, Stem(f)) || Has(b, f)
  {
    hide *;
    if Has(a + "=" + b, f) {
      FlagInPairSplits(a, b, f);
    }
    if EndsWith(a, Stem(f)) {
      FlagAtEnd(a, b, f);
    }
    if Has(b, f) {
      FlagAfter(a + "=", b, f);
    }
  }

  lemma FlagInPairSplits(a: string, b: string, f: Flag)
    requires NoEq(a) && Has(a + "=" + b, f)
    ensures EndsWith(a, Stem(f)) || Has(b, f)
  {
    hide Stem, NoEq;
    var s, t := a + "=" + b, FlagText(f);
    var j: nat :| j <= |s| && OccursAt(s, t, j);
    FlagPlace(a, b, f, j);
    if j > |a| {
      OccursBehind(a + "=", b, t, j);
    } else {
      assert a[j..] == s[j..j + |t|][..|Stem(f)|] == Stem(f);
    }
  }

  lemma OccursBehind(x: string, b: string, t: string, j: nat)
    requires j >= |x| && OccursAt(x + b, t, j)
    ensures Contains(b, t)
  {
    var k := j - |x|;
    assert b[k..k + |t|] == (x + b)[j..j + |t|];
    assert k <= |b| && OccursAt(b, t, k);
  }

  lemma FlagAtEnd(a: string, b: string, f: Flag)
    requires EndsWith(a, Stem(f))
    ensures Has(a + "=" + b, f)
  {
    hide Stem, OccursAt, Contains;
    var x := a[..|a| - |Stem(f)|];
    OccursInMiddle(x, FlagText(f), b);
    assert a + "=" + b == x + FlagText(f) + b;
  }

  lemma FlagAfter(x: string, b: string, f: Flag)
    requires Has(b, f)
    ensures Has(x + b, f)
  {
    hide Stem, OccursAt;
    var t := FlagText(f);
    var j: nat :| j <= |b| && OccursAt(b, t, j);
    OccursSplits(b, t, j);
    OccursInMiddle(x + b[..j], t, b[j + |t|..]);
    assert x + b == x + b[..j] + t + b[j + |t|..];
  }

  lemma NoFlagWithoutEq(b: string, f: Flag)
    requires NoEq(b)
    ensures !Has(b, f)
  {
    forall j: nat | j <= |b| ensures !OccursAt(b, FlagText(f), j) {
      if OccursAt(b, FlagText(f), j) {
        CharOf(b, FlagText(f), j, |Stem(f)|);
      }
    }
  }

  /** How far from their ends two stems differ. */
  function DifferAt(f: Flag, g: Flag): nat {
    match (f, g)
    case (Name, ClusterState) => 2
    case (ClusterState, Name) => 2
    case (Cluster, DataDir) => 2
    case (DataDir, Cluster) => 2
    case (ClientUrls, Listen) => 13
    case (Listen, ClientUrls) => 13
    case (ClientUrls, PeerUrls) => 6
    case (PeerUrls, ClientUrls) => 6
    case (Listen, PeerUrls) => 6
    case (PeerUrls, Listen) => 6
    case _ => 1
  }

  /** No stem is a suffix of another one. */
  lemma StemsDiffer(f: Flag, g: Flag)
    requires f != g
    ensures var k := DifferAt(f, g);
            1 <= k <= |Stem(f)| && k <= |Stem(g)| && Stem(f)[|Stem(f)| - k] != Stem(g)[|Stem(g)| - k]
  {
  }

  lemma EndCharOf(s: string, t: string, k: nat)
    requires EndsWith(s, t) && 1 <= k <= |t|
    ensures k <= |s| && s[|s| - k] == t[|t| - k]
  {
  }

  lemma EndsInOneStem(p: string, f: Flag, g: Flag)
    ensures EndsWith(p + Stem(f), Stem(g)) <==> f == g
  {
    hide Stem, EndsWith;
    var s := p + Stem(f);
    EndsInItself(p, Stem(f));
    if EndsWith(s, Stem(g)) && f != g {
      StemsDiffer(f, g);
      var k := DifferAt(f, g);
      EndCharOf(s, Stem(f), k);
      EndCharOf(s, Stem(g), k);
    }
  }

  lemma EndsInItself(p: string, t: string)
    ensures EndsWith(p + t, t)
  {
  }

  // ----- rewritten lines

  /** Values the rewrites put after a flag end in something that is neither blank nor comma. */
  predicate SolidValue(v: string) { v != "" && v[|v| - 1] !in WHITESPACE && v[|v| - 1] != ',' }

  lemma PrefixHasNoEq(line: string)
    ensures NoEq(Prefix(line))
  {
  }

  /** Rewriting keeps indent, list marker and comma. */
  lemma RewrittenKeepsShape(line: string, f: Flag, v: string)
    requires SolidValue(v)
    ensures Prefix(Rewritten(line, f, v)) == Prefix(line)
    ensures Comma(Rewritten(line, f, v)) == Comma(line)
  {
    hide *;
    FlagStart(f, v + Comma(line));
    RewrittenSplits(line, f, v);
    RewrittenPrefix(line, FlagText(f) + (v + Comma(line)));
    RewrittenComma(Prefix(line) + FlagText(f), v, line);
  }

  lemma FlagStart(f: Flag, w: string)
    ensures var body := FlagText(f) + w; |body| >= 2 && body[0] == '-' && body[1] == '-'
  {
    hide Stem;
    StemStart(f);
  }

  lemma RewrittenSplits(line: string, f: Flag, v: string)
    ensures Rewritten(line, f, v) == Prefix(line) + FlagText(f) + v + Comma(line)
    ensures Rewritten(line, f, v) == Prefix(line) + (FlagText(f) + (v + Comma(line)))
  {
    hide Prefix, FlagText, Comma;
  }

  lemma StemStart(f: Flag)
    ensures |Stem(f)| > 2 && Stem(f)[0] == '-' && Stem(f)[1] == '-'
  {
  }

  lemma CommaShape(line: string)
    ensures Comma(line) == "" || Comma(line) == ","
  {
  }

  lemma RewrittenPrefix(line: string, body: string)
    requires |body| >= 2 && body[0] == '-' && body[1] == '-'
    ensures Prefix(Prefix(line) + body) == Prefix(line)
  {
    hide *;
    var n := |line| - |TrimStart(line)|;
    var marker := if "- " <= TrimStart(line) then "- " else "";
    PrefixIs(line);
    Assoc(Blanks(n), marker, body);
    assert (marker + body)[0] == '-';
    BlanksGo(n, marker + body);
    assert "- " <= marker + body <==> marker == "- " by { MarkerShows(marker, body); }
    PrefixIs(Prefix(line) + body);
  }

  lemma PrefixIs(line: string)
    ensures |TrimStart(line)| <= |line|
    ensures Prefix(line) == Blanks(|line| - |TrimStart(line)|) + if "- " <= TrimStart(line) then "- " else ""
    ensures |Prefix(line)| == |line| - |TrimStart(line)| + if "- " <= TrimStart(line) then 2 else 0
  {
  }

  lemma MarkerShows(marker: string, body: string)
    requires marker == "" || marker == "- "
    requires |body| >= 2 && body[0] == '-' && body[1] == '-'
    ensures "- " <= marker + body <==> marker == "- "
  {
    if marker == "" {
      assert (marker + body)[1] == '-';
    }
  }

  lemma RewrittenComma(x: string, v: string, line: string)
    requires SolidValue(v)
    ensures Comma(x + v + Comma(line)) == Comma(line)
  {
    var r := x + v + Comma(line);
    CommaShape(line);
    assert r[|r| - 1] == if Comma(line) == "," then ',' else v[|v| - 1];
    assert TrimEnd(r) == r;
    assert EndsWith(r, ",") <==> r[|r| - 1] == ',';
  }

  /** Which flags a rewritten line holds. */
  lemma FlagsOfRewritten(line: string, f: Flag, v: string, g: Flag)
    ensures Has(Rewritten(line, f, v), g) <==> g == f || Has(v + Comma(line), g)
  {
    hide Has, Stem, Prefix, Comma, EndsWith;
    PrefixHasNoEq(line);
    StemHasNoEq(f);
    FlagInPair(Prefix(line) + Stem(f), v + Comma(line), g);
    EndsInOneStem(Prefix(line), f, g);
    assert Rewritten(line, f, v) == (Prefix(line) + Stem(f)) + "=" + (v + Comma(line));
  }

  lemma FlagsOfPlain(line: string, f: Flag, v: string, g: Flag)
    requires NoEq(v)
    ensures Has(Rewritten(line, f, v), g) <==> g == f
  {
    hide Has, Comma, Rewritten;
    CommaShape(line);
    FlagsOfRewritten(line, f, v, g);
    NoFlagWithoutEq(v + Comma(line), g);
  }

  // ----- names and addresses

  predicate CleanName(name: string) { InitialCluster.CleanText(name) && name[0] != '"' }

  /** A name that the rewrites, one after the other, do not take for a later flag. */
  predicate PassesName(name: string) { CleanName(name) && !EndsWith(name, Stem(ClusterState)) }

  /** Nor for the flag of the listen rewrite. */
  predicate SafeName(name: string) { PassesName(name) && !EndsWith(name, Stem(Listen)) }

  predicate GoodName(name: string) {
    CleanName(name) && (forall f: Flag :: !EndsWith(name, Stem(f))) && !Contains(name, FORCE)
  }

  predicate GoodIp(ip: string) {
    && InitialCluster.CleanEndpoint(InitialCluster.Plain(ip, "2380"))
    && '-' !in ip
  }

  lemma CleanNameFacts(name: string)
    requires CleanName(name)
    ensures NoEq(name) && SolidValue(name)
  {
    assert InitialCluster.CleanChar(name[|name| - 1]);
    assert forall i :: 0 <= i < |name| ==> InitialCluster.CleanChar(name[i]);
  }

  lemma GoodNameFacts(name: string)
    requires GoodName(name)
    ensures SafeName(name) && NoEq(name) && SolidValue(name) && !Contains(name, FORCE)
  {
    hide CleanName, Stem;
    CleanNameFacts(name);
  }

  lemma UrlFacts(ip: string)
    requires GoodIp(ip)
    ensures NoEq(PeerUrl(ip)) && SolidValue(PeerUrl(ip))
    ensures NoEq(ClientUrlList(ip)) && SolidValue(ClientUrlList(ip))
    ensures '-' !in PeerUrl(ip) && '-' !in ClientUrlList(ip)
  {
    assert forall i :: 0 <= i < |ip| ==> InitialCluster.CleanChar(ip[i]);
  }

  lemma FlagsOfCluster(line: string, name: string, ip: string, g: Flag)
    requires CleanName(name) && GoodIp(ip)
    ensures Has(Rewritten(line, Cluster, ClusterOf(name, ip)), g) <==> g == Cluster || EndsWith(name, Stem(g))
    ensures SolidValue(ClusterOf(name, ip))
  {
    hide Has, Comma, Rewritten, Stem, GoodIp, CleanName, EndsWith;
    var v := ClusterOf(name, ip);
    CleanNameFacts(name);
    UrlFacts(ip);
    CommaShape(line);
    FlagsOfRewritten(line, Cluster, v, g);
    var tail := PeerUrl(ip) + Comma(line);
    FlagInPair(name, tail, g);
    NoFlagWithoutEq(tail, g);
    assert v + Comma(line) == name + "=" + tail;
  }

  // ----- the patch, line by line

  /** The value the patch puts after a flag it rewrites. */
  function ValueOf(f: Flag, name: string, ip: string): string {
    match f
    case Name => name
    case ClientUrls => ClientUrlList(ip)
    case PeerUrls => PeerUrl(ip)
    case Cluster => ClusterOf(name, ip)
    case _ => "new"
  }

  predicate IsRewritten(f: Flag) { f != Listen && f != DataDir }

  /** The flag the patch acts on: the first, in its own order, that the line holds. */
  function Acting(line: string): Option<Flag> {
    if Has(line, Name) then Some(Name)
    else if Has(line, ClientUrls) then Some(ClientUrls)
    else if Has(line, PeerUrls) then Some(PeerUrls)
    else if Has(line, Cluster) then Some(Cluster)
    else if Has(line, ClusterState) then Some(ClusterState)
    else None
  }

  function PatchLine(line: string, name: string, ip: string): string {
    match Acting(line)
    case None => line
    case Some(f) => Rewritten(line, f, ValueOf(f, name, ip))
  }

  /** A patched line holds the flag that was acted on; as a member list it also holds the flag that
      its name ends like. */
  lemma FlagsOfAnyPatched(line: string, f: Flag, name: string, ip: string, g: Flag)
    requires CleanName(name) && GoodIp(ip) && IsRewritten(f)
    ensures Has(Rewritten(line, f, ValueOf(f, name, ip)), g)
       <==> g == f || (f == Cluster && EndsWith(name, Stem(g)))
    ensures SolidValue(ValueOf(f, name, ip))
  {
    hide Has, Rewritten, CleanName, GoodIp, EndsWith, Stem;
    CleanNameFacts(name);
    UrlFacts(ip);
    if f == Cluster {
      FlagsOfCluster(line, name, ip, g);
    } else {
      FlagsOfPlain(line, f, ValueOf(f, name, ip), g);
    }
  }

  lemma FlagsOfPatched(line: string, f: Flag, name: string, ip: string, g: Flag)
    requires GoodName(name) && GoodIp(ip) && IsRewritten(f)
    ensures Has(Rewritten(line, f, ValueOf(f, name, ip)), g) <==> g == f
    ensures SolidValue(ValueOf(f, name, ip))
  {
    hide Has, Rewritten, CleanName, GoodIp, EndsWith, Stem, ValueOf;
    FlagsOfAnyPatched(line, f, name, ip, g);
  }

  /** The five passes of the patch act on every line once. */
  lemma PassesActOnce(line: string, name: string, ip: string)
    requires PassesName(name) && GoodIp(ip)
    ensures ReplaceLine(ReplaceLine(ReplaceLine(ReplaceLine(ReplaceLine(line,
              Name, name), ClientUrls, ClientUrlList(ip)), PeerUrls, PeerUrl(ip)),
              Cluster, ClusterOf(name, ip)), ClusterState, "new")
         == PatchLine(line, name, ip)
  {
    hide Has, Rewritten, CleanName, GoodIp, ClientUrlList, PeerUrl, ClusterOf, EndsWith, Stem;
    forall f: Flag, g: Flag | IsRewritten(f) && (f == Cluster ==> g == ClusterState)
      ensures Has(Rewritten(line, f, ValueOf(f, name, ip)), g) <==> g == f
    {
      FlagsOfAnyPatched(line, f, name, ip, g);
    }
  }

  lemma ReplacedIsPatched(lines: seq<string>, name: string, ip: string)
    requires PassesName(name) && GoodIp(ip)
    ensures var r := Replaced(lines, name, ip);
            |r| == |lines| && forall i :: 0 <= i < |lines| ==> r[i] == PatchLine(lines[i], name, ip)
  {
    hide ReplaceLine, PatchLine, PassesName, GoodIp, ClientUrlList, PeerUrl, ClusterOf;
    forall i | 0 <= i < |lines| ensures Replaced(lines, name, ip)[i] == PatchLine(lines[i], name, ip) {
      PassesActOnce(lines[i], name, ip);
    }
  }

  /** Patching a patched line changes nothing. */
  lemma PatchLineIsIdempotent(line: string, name: string, ip: string)
    requires GoodName(name) && GoodIp(ip)
    ensures PatchLine(PatchLine(line, name, ip), name, ip) == PatchLine(line, name, ip)
  {
    hide Has, GoodName, GoodIp, Prefix, Comma, SolidValue, ValueOf;
    match Acting(line)
    case None =>
    case Some(f) =>
      var v := ValueOf(f, name, ip);
      forall g: Flag ensures Has(Rewritten(line, f, v), g) <==> g == f {
        FlagsOfPatched(line, f, name, ip, g);
      }
      FlagsOfPatched(line, f, name, ip, f);
      RewrittenKeepsShape(line, f, v);
  }

  // ----- insertion and removal of the force flag

  lemma ForceLineCore(line: string)
    ensures Core(ForceLine(line)) == FORCE && Forces(ForceLine(line))
  {
    hide *;
    CommaShape(line);
    PrefixIs(line);
    var marker := if "- " <= TrimStart(line) then "- " else "";
    CoreOfForce(|line| - |TrimStart(line)|, marker, Comma(line));
    ForceLineIs(line);
    Assoc(Blanks(|line| - |TrimStart(line)|), marker, FORCE + Comma(line));
    OccursInMiddle(Prefix(line), FORCE, Comma(line));
    ContainsForces(ForceLine(line));
  }

  lemma ForceLineIs(line: string)
    ensures ForceLine(line) == Prefix(line) + FORCE + Comma(line)
    ensures ForceLine(line) == Prefix(line) + (FORCE + Comma(line))
  {
    hide Prefix, Comma;
  }

  lemma CoreOfForce(n: nat, marker: string, comma: string)
    requires (marker == "" || marker == "- ") && (comma == "" || comma == ",")
    ensures Core(Blanks(n) + (marker + (FORCE + comma))) == FORCE
  {
    hide *;
    ForceBody(comma);
    MarkerGoes(marker, FORCE + comma);
    CoreIs(Blanks(n) + (marker + (FORCE + comma)));
    BlanksGo(n, marker + (FORCE + comma));
    QuotesStay(FORCE + comma);
    CommaGoes(FORCE, comma);
  }

  lemma BlanksGo(n: nat, s: string)
    requires s != "" && s[0] == '-'
    ensures TrimStart(Blanks(n) + s) == s
  {
    hide TrimLeft;
    BlanksAreSpace(n);
    TrimLeftPadded(Blanks(n), s, WHITESPACE);
  }

  lemma QuotesStay(s: string)
    requires s != "" && s[0] == '-'
    ensures TrimLeft(s, {'"'}) == s
  {
  }

  lemma CommaGoes(s: string, comma: string)
    requires s != "" && s[|s| - 1] == 'r' && (comma == "" || comma == ",")
    ensures TrimRight(s + comma, {'"', ',', ' '}) == s
  {
    hide TrimRight;
    TrimRightPadded(s, comma, {'"', ',', ' '});
  }

  lemma BlanksAreSpace(n: nat)
    ensures forall c :: c in Blanks(n) ==> c in WHITESPACE
    ensures '-' !in WHITESPACE
  {
  }

  lemma ForceBody(comma: string)
    ensures var body := FORCE + comma; |body| >= 2 && body[0] == '-' && body[1] == '-'
    ensures |FORCE| > 0 && FORCE[|FORCE| - 1] == 'r'
  {
  }

  lemma {:induction false} MarkerGoes(marker: string, body: string)
    requires marker == "" || marker == "- "
    requires |body| >= 2 && body[0] == '-' && body[1] == '-'
    ensures TrimPrefixes(marker + body, "- ") == body
    ensures (marker + body)[0] == '-'
  {
    assert !("- " <= body);
    if marker == "" {
      assert marker + body == body;
    } else {
      assert (marker + body)[2..] == body;
    }
  }

  lemma DefaultForceLineCore()
    ensures Core(DEFAULT_FORCE_LINE) == FORCE && Forces(DEFAULT_FORCE_LINE)
  {
    hide *;
    CoreOfForce(8, "- ", "");
    DefaultForceLineIs();
    OccursInMiddle(Blanks(8) + "- ", FORCE, "");
    ContainsForces(DEFAULT_FORCE_LINE);
  }

  lemma DefaultForceLineIs()
    ensures DEFAULT_FORCE_LINE == Blanks(8) + ("- " + (FORCE + ""))
    ensures DEFAULT_FORCE_LINE == (Blanks(8) + "- ") + FORCE + ""
  {
    assert FORCE + "" == FORCE;
  }

  /** What is trimmed away at the ends leaves a part of the line. */
  lemma CoreIsPart(line: string)
    ensures Contains(line, Core(line))
  {
    hide *;
    var a := TrimStart(line);
    var b := TrimPrefixes(a, "- ");
    TrimPrefixesIsEnd(a, "- ");
    var c := TrimLeft(b, {'"'});
    var core := TrimRight(c, {'"', ',', ' '});
    CoreIs(line);
    SliceIsPart(c, 0, |core|);
    SliceIsPart(b, |b| - |c|, |b|);
    SliceIsPart(a, |a| - |b|, |a|);
    SliceIsPart(line, |line| - |a|, |line|);
    PartOfPart(b, c, core);
    PartOfPart(a, b, core);
    PartOfPart(line, a, core);
  }

  lemma CoreIs(line: string)
    ensures Core(line) == TrimRight(TrimLeft(TrimPrefixes(TrimStart(line), "- "), {'"'}), {'"', ',', ' '})
    ensures TrimStart(line) == TrimLeft(line, WHITESPACE)
  {
  }

  lemma SliceIsPart(s: string, i: nat, j: nat)
    requires i <= j <= |s|
    ensures Contains(s, s[i..j])
    ensures j == |s| ==> s[i..j] == s[i..]
    ensures i == 0 ==> s[i..j] == s[..j]
  {
    OccursInMiddle(s[..i], s[i..j], s[j..]);
    assert s == s[..i] + s[i..j] + s[j..];
  }

  lemma PartOfPart(s: string, t: string, u: string)
    requires Contains(s, t) && Contains(t, u)
    ensures Contains(s, u)
  {
    hide OccursAt;
    var i: nat :| i <= |s| && OccursAt(s, t, i);
    var j: nat :| j <= |t| && OccursAt(t, u, j);
    OccursSplits(s, t, i);
    OccursSplits(t, u, j);
    OccursInMiddle(s[..i] + t[..j], u, t[j + |u|..] + s[i + |t|..]);
    assert s == s[..i] + t[..j] + u + (t[j + |u|..] + s[i + |t|..]);
  }

  lemma {:induction false} StripNothing(lines: seq<string>)
    ensures Strip(lines) == lines <==> forall i :: 0 <= i < |lines| ==> Core(lines[i]) != FORCE
    ensures |Strip(lines)| <= |lines|
  {
    hide Core;
    if lines != [] {
      StripNothing(lines[1..]);
      assert lines == [lines[0]] + lines[1..];
    }
  }

  lemma {:induction false} StripInserted(lines: seq<string>)
    ensures Strip(Inserted(lines)) == Strip(lines)
  {
    hide Core, Has, ForceLine, Strip, Forces;
    if lines == [] {
      DefaultForceLineCore();
      StripCons(DEFAULT_FORCE_LINE, []);
      assert [DEFAULT_FORCE_LINE] + [] == [DEFAULT_FORCE_LINE];
    } else {
      var first, rest := lines[0], lines[1..];
      assert lines == [first] + rest;
      StripCons(first, rest);
      if Has(first, DataDir) {
        ForceLineCore(first);
        StripCons(ForceLine(first), rest);
        StripCons(first, [ForceLine(first)] + rest);
        assert [first, ForceLine(first)] + rest == [first] + ([ForceLine(first)] + rest);
      } else {
        StripInserted(rest);
        StripCons(first, Inserted(rest));
      }
    }
  }

  lemma {:induction false} StripCons(first: string, rest: seq<string>)
    ensures Strip([first] + rest) == if Core(first) == FORCE then Strip(rest) else [first] + Strip(rest)
  {
    hide Core;
    assert ([first] + rest)[1..] == rest;
    assert [] + Strip(rest) == Strip(rest);
  }

  /** Stripping undoes inserting, exactly for the manifests in which no line is the bare flag. */
  lemma StripUndoesEnsure(lines: seq<string>)
    ensures Strip(Ensure(lines)) == lines <==> forall i :: 0 <= i < |lines| ==> Core(lines[i]) != FORCE
  {
    hide Core, Forces;
    StripNothing(lines);
    StripInserted(lines);
  }

  /** Number of lines that mention the flag. */
  function ForceCount(lines: seq<string>): nat {
    if lines == [] then 0 else (if Forces(lines[0]) then 1 else 0) + ForceCount(lines[1..])
  }

  lemma ForceCountCons(first: string, rest: seq<string>)
    ensures ForceCount([first] + rest) == (if Forces(first) then 1 else 0) + ForceCount(rest)
  {
    assert ([first] + rest)[1..] == rest;
  }

  lemma ForceCountNothing()
    ensures ForceCount([]) == 0
  {
  }

  lemma {:induction false} InsertedOnce(lines: seq<string>)
    ensures ForceCount(Inserted(lines)) == ForceCount(lines) + 1
  {
    hide Forces, Has, ForceLine, ForceCount, Core;
    if lines == [] {
      DefaultForceLineCore();
      ForceCountCons(DEFAULT_FORCE_LINE, []);
      ForceCountNothing();
      assert [DEFAULT_FORCE_LINE] + [] == [DEFAULT_FORCE_LINE];
    } else {
      var first, rest := lines[0], lines[1..];
      assert lines == [first] + rest;
      ForceCountCons(first, rest);
      if Has(first, DataDir) {
        ForceLineCore(first);
        ForceCountCons(ForceLine(first), rest);
        ForceCountCons(first, [ForceLine(first)] + rest);
        assert [first, ForceLine(first)] + rest == [first] + ([ForceLine(first)] + rest);
      } else {
        InsertedOnce(rest);
        ForceCountCons(first, Inserted(rest));
      }
    }
  }

  lemma {:induction false} NoForceCount(lines: seq<string>)
    ensures ForceCount(lines) == 0 <==> forall i :: 0 <= i < |lines| ==> !Forces(lines[i])
  {
    hide Forces;
    if lines != [] {
      NoForceCount(lines[1..]);
    }
  }

  // ----- the patch as a whole

  /** The force flag has an f in it; what stands before a rewritten value has none. */
  predicate NoF(s: string) { forall i :: 0 <= i < |s| ==> s[i] != 'f' }

  lemma StemHasNoF(f: Flag)
    requires IsRewritten(f)
    ensures NoF(Stem(f))
  {
    hide Stem;
    if f.Name? || f.ClientUrls? || f.PeerUrls? {
      FirstStemsHaveNoF(f);
    } else {
      LastStemsHaveNoF(f);
    }
  }

  lemma FirstStemsHaveNoF(f: Flag)
    requires f.Name? || f.ClientUrls? || f.PeerUrls?
    ensures NoF(Stem(f))
  {
  }

  lemma LastStemsHaveNoF(f: Flag)
    requires f.Cluster? || f.ClusterState?
    ensures NoF(Stem(f))
  {
  }

  lemma PrefixHasNoF(line: string)
    ensures NoF(Prefix(line))
  {
  }

  /** So a rewritten line mentions the force flag only in its value. */
  lemma ForceInRewritten(line: string, f: Flag, v: string)
    requires IsRewritten(f) && Forces(Rewritten(line, f, v))
    ensures Forces(v + Comma(line))
  {
    hide Stem, Comma, Prefix, OccursAt, NoF;
    var head, w := Prefix(line) + Stem(f), v + Comma(line);
    var s := Rewritten(line, f, v);
    var j: nat :| j <= |s| && OccursAt(s, FORCE, j);
    PrefixHasNoF(line);
    StemHasNoF(f);
    NoFAppend(Prefix(line), Stem(f));
    assert s == head + "=" + w;
    ForceBehindHead(head, w, j);
  }

  lemma NoFAppend(a: string, b: string)
    requires NoF(a) && NoF(b)
    ensures NoF(a + b)
  {
  }

  lemma ForceBehindHead(head: string, w: string, j: nat)
    requires NoF(head) && OccursAt(head + "=" + w, FORCE, j)
    ensures Forces(w)
  {
    var s := head + "=" + w;
    assert FORCE[0] == '-' && FORCE[2] == 'f' && |FORCE| == 19;
    CharOf(s, FORCE, j, 0);
    CharOf(s, FORCE, j, 1);
    CharOf(s, FORCE, j, 2);
    assert s[|head|] == '=';
    assert j > |head|;
    var k := j - |head| - 1;
    assert w[k..k + |FORCE|] == s[j..j + |FORCE|];
    assert k <= |w| && OccursAt(w, FORCE, k);
  }

  lemma NoDashNoForce(v: string)
    requires '-' !in v
    ensures !Forces(v)
  {
    forall j: nat | j <= |v| ensures !OccursAt(v, FORCE, j) {
      if OccursAt(v, FORCE, j) {
        CharOf(v, FORCE, j, 0);
      }
    }
  }

  /** No patched line mentions the force flag, unless it is an untouched line that did. */
  lemma PatchedLineForces(line: string, name: string, ip: string)
    requires GoodName(name) && GoodIp(ip)
    ensures Forces(PatchLine(line, name, ip)) ==> Acting(line).None? && Forces(line)
  {
    hide Forces, Rewritten, Has, GoodName, GoodIp, ClientUrlList, PeerUrl, Comma;
    if Acting(line).Some? {
      var f := Acting(line).value;
      var v := ValueOf(f, name, ip);
      GoodNameFacts(name);
      UrlFacts(ip);
      CommaShape(line);
      if Forces(Rewritten(line, f, v)) {
        ForceInRewritten(line, f, v);
        ValueHasNoForce(f, name, ip, Comma(line));
      }
    }
  }

  lemma ValueHasNoForce(f: Flag, name: string, ip: string, comma: string)
    requires GoodName(name) && GoodIp(ip) && (comma == "" || comma == ",")
    ensures !Forces(ValueOf(f, name, ip) + comma)
  {
    hide Forces, GoodName, GoodIp, ClientUrlList, PeerUrl;
    GoodNameFacts(name);
    UrlFacts(ip);
    if f == Name {
      assert comma == "" ==> name + comma == name;
      NoDashNoForce(comma);
      ForceBeforeTail(name, comma);
    } else if f == Cluster {
      var tail := "=" + (PeerUrl(ip) + comma);
      ForceBeforeTail(name, tail);
      assert ValueOf(f, name, ip) + comma == name + tail;
    } else {
      NoDashNoForce(ValueOf(f, name, ip) + comma);
    }
  }

  /** A text without dashes or letters of the flag at its start adds no occurrence. */
  lemma ForceBeforeTail(name: string, tail: string)
    requires !Contains(name, FORCE) && NoDash(tail) && (tail == "" || tail[0] == ',' || tail[0] == '=')
    ensures !Forces(name + tail)
  {
    var s := name + tail;
    forall j: nat | j <= |s| ensures !OccursAt(s, FORCE, j) {
      if OccursAt(s, FORCE, j) {
        InName(name, tail, j);
      }
    }
  }

  lemma InName(name: string, tail: string, j: nat)
    requires OccursAt(name + tail, FORCE, j)
    requires NoDash(tail) && (tail == "" || tail[0] == ',' || tail[0] == '=')
    ensures j <= |name| && OccursAt(name, FORCE, j)
  {
    var s := name + tail;
    CharOf(s, FORCE, j, 0);
    assert forall i :: |name| <= i < |s| ==> s[i] != '-';
    assert j < |name|;
    if |name| < j + |FORCE| {
      var k := |name| - j;
      CharOf(s, FORCE, j, k);
      assert s[|name|] == tail[0];
      ForceChars(k);
    }
    assert s[j..j + |FORCE|] == name[j..j + |FORCE|];
  }

  predicate NoDash(s: string) { forall i :: 0 <= i < |s| ==> s[i] != '-' }

  lemma ForceChars(k: nat)
    requires k < |FORCE|
    ensures FORCE[k] != ',' && FORCE[k] != '='
  {
  }

  lemma {:induction false} InsertedLines(lines: seq<string>, l: string)
    requires l in Inserted(lines)
    ensures l in lines || (NoEq(l) && Core(l) == FORCE && Forces(l))
  {
    hide Has, Core, Forces, ForceLine, NoEq;
    DefaultForceLineCore();
    ForceLinesHaveNoEq();
    if lines != [] {
      assert lines == [lines[0]] + lines[1..];
      if Has(lines[0], DataDir) {
        ForceLineCore(lines[0]);
      } else if l != lines[0] {
        InsertedLines(lines[1..], l);
      }
    }
  }

  lemma ForceLinesHaveNoEq()
    ensures NoEq(DEFAULT_FORCE_LINE) && forall line :: NoEq(ForceLine(line))
  {
    forall line ensures NoEq(ForceLine(line)) {
      ForceLineHasNoEq(line);
    }
  }

  lemma ForceLineHasNoEq(line: string)
    ensures NoEq(ForceLine(line))
  {
    hide *;
    ForceLineIs(line);
    CommaShape(line);
    PrefixHasNoEq(line);
    ForceTailHasNoEq(Comma(line));
    NoEqAppend(Prefix(line), FORCE + Comma(line));
  }

  lemma ForceTailHasNoEq(comma: string)
    ensures comma == "" || comma == "," ==> NoEq(FORCE + comma)
  {
  }

  lemma {:induction false} InsertedKeeps(lines: seq<string>, l: string)
    requires l in lines
    ensures l in Inserted(lines)
  {
    hide Has, ForceLine;
    assert lines == [lines[0]] + lines[1..];
    if !Has(lines[0], DataDir) && l != lines[0] {
      InsertedKeeps(lines[1..], l);
    }
  }

  lemma NoEqNoFlags(line: string)
    requires NoEq(line)
    ensures forall f: Flag :: !Has(line, f)
  {
    forall f: Flag ensures !Has(line, f) {
      NoFlagWithoutEq(line, f);
    }
  }

  /** Patching a patched manifest changes nothing. */
  lemma PatchIsIdempotent(lines: seq<string>, name: string, ip: string)
    requires GoodName(name) && GoodIp(ip)
    ensures Patch(Patch(lines, name, ip), name, ip) == Patch(lines, name, ip)
  {
    hide GoodName, GoodIp, Has, Forces, PatchLine, Replaced, NoEq, Core, Inserted;
    var r := Replaced(lines, name, ip);
    var p := Ensure(r);
    GoodNameFacts(name);
    ReplacedIsPatched(lines, name, ip);
    ReplacedIsPatched(p, name, ip);
    assert exists i :: 0 <= i < |p| && Forces(p[i]) by { EnsuredForces(r); }
    forall i | 0 <= i < |p| ensures PatchLine(p[i], name, ip) == p[i] {
      if p[i] in r {
        var k :| 0 <= k < |r| && r[k] == p[i];
        PatchLineIsIdempotent(lines[k], name, ip);
      } else {
        InsertedLines(r, p[i]);
        NoEqNoFlags(p[i]);
        UntouchedLine(p[i], name, ip);
      }
    }
    assert Replaced(p, name, ip) == p;
  }

  lemma UntouchedLine(line: string, name: string, ip: string)
    requires forall f: Flag :: IsRewritten(f) ==> !Has(line, f)
    ensures PatchLine(line, name, ip) == line
  {
    hide Has, Rewritten;
  }

  lemma EnsuredForces(lines: seq<string>)
    ensures exists i :: 0 <= i < |Ensure(lines)| && Forces(Ensure(lines)[i])
  {
    hide Forces, Inserted, ForceCount;
    if exists i :: 0 <= i < |lines| && Forces(lines[i]) {
      assert Ensure(lines) == lines;
    } else {
      assert Ensure(lines) == Inserted(lines);
      InsertedOnce(lines);
      NoForceCount(Inserted(lines));
    }
  }

  /** A manifest that does not mention the force flag gets it exactly once. */
  lemma PatchForcesOnce(lines: seq<string>, name: string, ip: string)
    requires GoodName(name) && GoodIp(ip) && forall i :: 0 <= i < |lines| ==> !Forces(lines[i])
    ensures ForceCount(Patch(lines, name, ip)) == 1
  {
    hide GoodName, GoodIp, Forces, PatchLine, Replaced, Inserted;
    var r := Replaced(lines, name, ip);
    GoodNameFacts(name);
    ReplacedIsPatched(lines, name, ip);
    forall i | 0 <= i < |r| ensures !Forces(r[i]) {
      PatchedLineForces(lines[i], name, ip);
    }
    NoForceCount(r);
    InsertedOnce(r);
  }

  // ----- the other lines

  predicate Untouched(line: string) { !Forces(line) && forall f: Flag :: f == DataDir || !Has(line, f) }

  /** The lines that hold none of the rewritten flags, in order. */
  function Others(lines: seq<string>): seq<string> {
    if lines == [] then [] else (if Untouched(lines[0]) then [lines[0]] else []) + Others(lines[1..])
  }

  lemma {:induction false} OthersOfMapped(lines: seq<string>, out: seq<string>)
    requires |out| == |lines|
    requires forall i :: 0 <= i < |lines| ==> out[i] == lines[i] || (!Untouched(lines[i]) && !Untouched(out[i]))
    ensures Others(out) == Others(lines)
  {
    hide Untouched;
    if lines != [] {
      OthersOfMapped(lines[1..], out[1..]);
    }
  }

  lemma OthersOfReplaced(lines: seq<string>, f: Flag, v: string)
    requires f != DataDir
    ensures Others(Replace(lines, f, v)) == Others(lines)
  {
    hide Has, Others, Rewritten, Forces;
    var out := Replace(lines, f, v);
    forall i | 0 <= i < |lines|
      ensures out[i] == lines[i] || (!Untouched(lines[i]) && !Untouched(out[i]))
    {
      FlagsOfRewritten(lines[i], f, v, f);
    }
    OthersOfMapped(lines, out);
  }

  lemma OthersOfListenAll(lines: seq<string>)
    ensures Others(ListenAll(lines)) == Others(lines)
  {
    hide Has, Others, ListenLine, Forces, Contains;
    var out := ListenLines(lines);
    forall i | 0 <= i < |lines|
      ensures out[i] == lines[i] || (!Untouched(lines[i]) && !Untouched(out[i]))
    {
      ListenLineFlags(lines[i], Listen);
    }
    OthersOfMapped(lines, out);
  }

  lemma ListenLineFlags(line: string, g: Flag)
    ensures Has(line, Listen) ==> (Has(ListenLine(line), g) <==> g == Listen)
    ensures !Has(line, Listen) ==> ListenLine(line) == line
  {
    hide *;
    ListenLineIs(line);
    if Has(line, Listen) {
      var pad, w := Blanks(|line| - |TrimStart(line)|), "https://0.0.0.0:2379" + Comma(line);
      ListenPartsHaveNoEq(|line| - |TrimStart(line)|, Comma(line));
      CommaShape(line);
      FlagInPair(pad + Stem(Listen), w, g);
      EndsInOneStem(pad, Listen, g);
      NoFlagWithoutEq(w, g);
    }
  }

  lemma ListenLineIs(line: string)
    ensures ListenLine(line) == if Has(line, Listen)
                                then (Blanks(|line| - |TrimStart(line)|) + Stem(Listen)) + "="
                                  + ("https://0.0.0.0:2379" + Comma(line))
                                else line
  {
    hide Has, Comma, Stem, TrimStart;
    ListenText();
  }

  lemma ListenPartsHaveNoEq(n: nat, comma: string)
    ensures NoEq(Blanks(n) + Stem(Listen))
    ensures comma == "" || comma == "," ==> NoEq("https://0.0.0.0:2379" + comma)
  {
  }

  lemma ListenText()
    ensures LISTEN_ALL == Stem(Listen) + "=" + "https://0.0.0.0:2379"
  {
  }

  lemma ListenLineAgain(line: string)
    ensures ListenLine(ListenLine(line)) == ListenLine(line)
  {
    hide *;
    ListenLineIs(line);
    ListenLineIs(ListenLine(line));
    if Has(line, Listen) {
      ListenLineFlags(line, Listen);
      var n := |line| - |TrimStart(line)|;
      ListenShape(n, line);
    }
  }

  lemma ListenShape(n: nat, line: string)
    ensures var r := (Blanks(n) + Stem(Listen)) + "=" + ("https://0.0.0.0:2379" + Comma(line));
            |TrimStart(r)| <= |r| && |r| - |TrimStart(r)| == n && Comma(r) == Comma(line)
  {
    hide Comma, Stem, TrimLeft, TrimRight, TrimEnd;
    var v, body := "https://0.0.0.0:2379", Stem(Listen) + "=" + ("https://0.0.0.0:2379" + Comma(line));
    var r := (Blanks(n) + Stem(Listen)) + "=" + (v + Comma(line));
    StemStart(Listen);
    BlanksGo(n, body);
    assert r == Blanks(n) + body;
    RewrittenComma(Blanks(n) + Stem(Listen) + "=", v, line);
    assert r == (Blanks(n) + Stem(Listen) + "=") + v + Comma(line);
  }

  /** Widening the listen address twice is widening it once. */
  lemma ListenAllIsIdempotent(lines: seq<string>)
    ensures ListenAll(ListenAll(lines)) == ListenAll(lines)
  {
    hide ListenLine, Contains;
    forall i | 0 <= i < |lines| ensures ListenLine(ListenLine(lines[i])) == ListenLine(lines[i]) {
      ListenLineAgain(lines[i]);
    }
    assert ListenLines(ListenLines(lines)) == ListenLines(lines);
  }

  lemma {:induction false} OthersOfInserted(lines: seq<string>)
    ensures Others(Inserted(lines)) == Others(lines)
  {
    hide Has, Forces, ForceLine, Untouched, Core, Others;
    if lines == [] {
      DefaultForceLineCore();
      ForcedIsTouched(DEFAULT_FORCE_LINE);
      OthersCons(DEFAULT_FORCE_LINE, []);
      assert [DEFAULT_FORCE_LINE] + [] == [DEFAULT_FORCE_LINE];
    } else {
      var first, rest := lines[0], lines[1..];
      assert lines == [first] + rest;
      OthersCons(first, rest);
      if Has(first, DataDir) {
        ForceLineCore(first);
        ForcedIsTouched(ForceLine(first));
        OthersCons(ForceLine(first), rest);
        OthersCons(first, [ForceLine(first)] + rest);
        assert [first, ForceLine(first)] + rest == [first] + ([ForceLine(first)] + rest);
      } else {
        OthersOfInserted(rest);
        OthersCons(first, Inserted(rest));
      }
    }
  }

  lemma OthersCons(first: string, rest: seq<string>)
    ensures Others([first] + rest) == (if Untouched(first) then [first] else []) + Others(rest)
  {
    assert ([first] + rest)[1..] == rest;
  }

  lemma ForcedIsTouched(line: string)
    requires Forces(line)
    ensures !Untouched(line)
  {
  }

  lemma {:induction false} OthersOfStripped(lines: seq<string>)
    ensures Others(Strip(lines)) == Others(lines)
  {
    hide Core, Untouched, Others;
    if lines != [] {
      OthersOfStripped(lines[1..]);
      OthersCons(lines[0], lines[1..]);
      OthersCons(lines[0], Strip(lines[1..]));
      assert lines == [lines[0]] + lines[1..];
      assert [] + Others(lines[1..]) == Others(lines[1..]);
      assert [] + Strip(lines[1..]) == Strip(lines[1..]);
      BareIsTouched(lines[0]);
    }
  }

  lemma BareIsTouched(line: string)
    ensures Core(line) == FORCE ==> !Untouched(line)
  {
    hide *;
    CoreIsPart(line);
    if Contains(line, FORCE) {
      ContainsForces(line);
      ForcedIsTouched(line);
    }
  }

  lemma ContainsForces(line: string)
    ensures Contains(line, FORCE) <==> Forces(line)
  {
  }

  /** Forcing a new cluster: patch, listen rewrite, finalize. */
  function Forced(lines: seq<string>, name: string, ip: string): seq<string> {
    Finalize(ListenAll(Patch(lines, name, ip)), name, ip)
  }

  /** Every line without one of the rewritten flags keeps its text and its place among the
      others, for any name and address. */
  lemma OtherLinesSurvive(lines: seq<string>, name: string, ip: string)
    ensures Others(Forced(lines, name, ip)) == Others(lines)
  {
    hide Others, Inserted, Replace, Strip, ListenAll, Forces, Has, ClusterOf, PeerUrl, ClientUrlList;
    var a := Replace(lines, Name, name);
    var b := Replace(a, ClientUrls, ClientUrlList(ip));
    var c := Replace(b, PeerUrls, PeerUrl(ip));
    var d := Replace(c, Cluster, ClusterOf(name, ip));
    var e := Replace(d, ClusterState, "new");
    OthersOfReplaced(lines, Name, name);
    OthersOfReplaced(a, ClientUrls, ClientUrlList(ip));
    OthersOfReplaced(b, PeerUrls, PeerUrl(ip));
    OthersOfReplaced(c, Cluster, ClusterOf(name, ip));
    OthersOfReplaced(d, ClusterState, "new");
    OthersOfInserted(e);
    var p := Patch(lines, name, ip);
    OthersOfListenAll(p);
    var s := Strip(ListenAll(p));
    OthersOfStripped(ListenAll(p));
    var t := Replace(s, Cluster, ClusterOf(name, ip));
    OthersOfReplaced(s, Cluster, ClusterOf(name, ip));
    OthersOfReplaced(t, ClusterState, "existing");
  }

  // ----- the next heal

  /** The manifest line with the member list that the earlier rewrites of the patch leave alone. */
  predicate KeepsCluster(line: string) { Acting(line) == Some(Cluster) }

  lemma FlaggedIsNotBare(line: string, f: Flag)
    requires Has(line, f)
    ensures Core(line) != FORCE
  {
    hide *;
    FlagHasEq(line, f);
    EqIsNoSpace();
    CoreIs(line);
    EqInTrimLeft(line, WHITESPACE);
    EqInTrimDashes(TrimStart(line));
    EqInTrimQuotes(TrimPrefixes(TrimStart(line), "- "));
    ForceHasNoEq();
  }

  lemma FlagHasEq(line: string, f: Flag)
    requires Has(line, f)
    ensures '=' in line
  {
    hide Stem;
    var t := FlagText(f);
    var j: nat :| j <= |line| && OccursAt(line, t, j);
    CharOf(line, t, j, |Stem(f)|);
  }

  lemma ForceHasNoEq()
    ensures '=' !in FORCE
  {
  }

  lemma {:induction false} EqInTrimLeft(s: string, cs: set<char>)
    requires '=' in s && '=' !in cs
    ensures '=' in TrimLeft(s, cs)
  {
    if s[0] in cs {
      assert s == [s[0]] + s[1..];
      EqInTrimLeft(s[1..], cs);
    }
  }

  lemma {:induction false} EqInTrimRight(s: string, cs: set<char>)
    requires '=' in s && '=' !in cs
    ensures '=' in TrimRight(s, cs)
  {
    if s[|s| - 1] in cs {
      assert s == s[..|s| - 1] + [s[|s| - 1]];
      EqInTrimRight(s[..|s| - 1], cs);
    }
  }

  lemma {:induction false} EqInTrimDashes(s: string)
    requires '=' in s
    ensures '=' in TrimPrefixes(s, "- ")
    decreases |s|
  {
    hide TrimPrefixes;
    TrimOneDash(s);
    if "- " <= s {
      EqBehindDash(s);
      EqInTrimDashes(s[2..]);
    }
  }

  lemma TrimOneDash(s: string)
    ensures TrimPrefixes(s, "- ") == if "- " <= s then TrimPrefixes(s[2..], "- ") else s
  {
  }

  lemma EqBehindDash(s: string)
    requires "- " <= s && '=' in s
    ensures '=' in s[2..]
  {
    var i :| 0 <= i < |s| && s[i] == '=';
    assert i >= 2;
    assert s[2..][i - 2] == '=';
  }

  lemma EqIsNoSpace()
    ensures '=' !in WHITESPACE
  {
  }

  lemma EqInTrimQuotes(s: string)
    requires '=' in s
    ensures '=' in TrimRight(TrimLeft(s, {'"'}), {'"', ',', ' '})
  {
    hide *;
    EqInTrimLeft(s, {'"'});
    EqInTrimRight(TrimLeft(s, {'"'}), {'"', ',', ' '});
  }

  lemma {:induction false} StripKeeps(lines: seq<string>, l: string)
    ensures l in Strip(lines) <==> l in lines && Core(l) != FORCE
  {
    hide Core;
    if lines != [] {
      StripKeeps(lines[1..], l);
      assert lines == [lines[0]] + lines[1..];
    }
  }

  /** Some line holds the member-list flag. */
  predicate AnyCluster(lines: seq<string>) { exists l :: l in lines && Has(l, Cluster) }

  lemma ClusterAfterPatch(lines: seq<string>, name: string, ip: string)
    requires PassesName(name) && GoodIp(ip)
    ensures AnyCluster(Patch(lines, name, ip)) <==> exists l :: l in lines && KeepsCluster(l)
  {
    hide PassesName, GoodIp, Has, Forces, PatchLine, Replaced, NoEq, Core, Inserted, Acting;
    var r, p := Replaced(lines, name, ip), Patch(lines, name, ip);
    ReplacedIsPatched(lines, name, ip);
    if l :| l in lines && KeepsCluster(l) {
      var k :| 0 <= k < |lines| && lines[k] == l;
      ClusterOfPatched(l, name, ip);
      assert r[k] in r;
      InsertedKeeps(r, r[k]);
      assert r[k] in p && Has(r[k], Cluster);
    }
    if l :| l in p && Has(l, Cluster) {
      if l !in r {
        InsertedLines(r, l);
        NoEqNoFlags(l);
      }
      var k :| 0 <= k < |r| && r[k] == l;
      ClusterOfPatched(lines[k], name, ip);
      assert lines[k] in lines && KeepsCluster(lines[k]);
    }
  }

  lemma ClusterOfPatched(line: string, name: string, ip: string)
    requires PassesName(name) && GoodIp(ip)
    ensures Has(PatchLine(line, name, ip), Cluster) <==> KeepsCluster(line)
  {
    hide CleanName, GoodIp, Has, Rewritten, EndsWith, Stem;
    if Acting(line).Some? {
      FlagsOfAnyPatched(line, Acting(line).value, name, ip, Cluster);
    }
  }

  /** The listen rewrite spares the member list, unless its lines hold the listen flag as well. */
  lemma {:induction false} ClusterAfterListen(lines: seq<string>, both: bool)
    requires forall l :: l in lines && Has(l, Cluster) ==> (Has(l, Listen) <==> both)
    ensures AnyCluster(Strip(ListenAll(lines))) <==> AnyCluster(lines) && (both ==> Wide(lines))
  {
    hide Has, Core, ListenLine, Wide;
    var m := ListenAll(lines);
    forall l | Has(l, Cluster) ensures l in Strip(m) <==> l in m {
      StripKeeps(m, l);
      FlaggedIsNotBare(l, Cluster);
    }
    forall l | Has(l, Cluster) ensures l in m <==> l in lines && (both ==> Wide(lines)) {
      if l in lines && !both {
        var k :| 0 <= k < |lines| && lines[k] == l;
        ListenLineFlags(l, Cluster);
        assert ListenLines(lines)[k] == l;
      }
      if l in m && !Wide(lines) {
        var k :| 0 <= k < |m| && m[k] == l;
        ListenLineFlags(lines[k], Cluster);
        assert lines[k] in lines;
      }
    }
  }

  lemma PatchedClusterLines(lines: seq<string>, name: string, ip: string, l: string)
    requires PassesName(name) && GoodIp(ip) && l in Patch(lines, name, ip) && Has(l, Cluster)
    ensures Has(l, Listen) <==> EndsWith(name, Stem(Listen))
  {
    hide PassesName, GoodIp, Has, Forces, PatchLine, Replaced, NoEq, Core, Inserted, EndsWith, Stem;
    var r := Replaced(lines, name, ip);
    ReplacedIsPatched(lines, name, ip);
    if l !in r {
      InsertedLines(r, l);
      NoEqNoFlags(l);
    }
    var k :| 0 <= k < |r| && r[k] == l;
    ListenOfPatched(lines[k], name, ip);
  }

  lemma ListenOfPatched(line: string, name: string, ip: string)
    requires PassesName(name) && GoodIp(ip) && Has(PatchLine(line, name, ip), Cluster)
    ensures Has(PatchLine(line, name, ip), Listen) <==> EndsWith(name, Stem(Listen))
  {
    hide CleanName, GoodIp, Has, Rewritten, EndsWith, Stem;
    ClusterOfPatched(line, name, ip);
    FlagsOfAnyPatched(line, Cluster, name, ip, Listen);
  }

  /** A value that is read back as it is: no blank at its ends, no quote before it, and neither a
      quote nor a comma behind it. */
  predicate ReadableValue(v: string) {
    && v != "" && v[0] !in WHITESPACE && v[0] != '"'
    && v[|v| - 1] !in WHITESPACE && v[|v| - 1] !in {'"', ',', ' '}
  }

  /** The value of a flag in a line that was rewritten for it. */
  lemma RewrittenValue(line: string, f: Flag, v: string)
    requires ReadableValue(v)
    ensures LineValue(Rewritten(line, f, v), f) == Some(v)
  {
    hide *;
    FlagComesFirst(line, f, v);
    CommaShape(line);
    ValueAfterComma(v, Comma(line));
    ReadableIsThere(v);
    RewrittenParts(line, f, v);
    LineValueAt(Rewritten(line, f, v), f, |Prefix(line)|, v);
  }

  lemma ReadableIsThere(v: string)
    requires ReadableValue(v)
    ensures v != ""
  {
  }

  lemma RewrittenClusterValue(line: string, name: string, ip: string)
    requires CleanName(name) && GoodIp(ip)
    ensures LineValue(Rewritten(line, Cluster, ClusterOf(name, ip)), Cluster) == Some(ClusterOf(name, ip))
  {
    hide *;
    ClusterEnds(name, ip);
    RewrittenValue(line, Cluster, ClusterOf(name, ip));
  }

  lemma RewrittenParts(line: string, f: Flag, v: string)
    ensures var r, k := Rewritten(line, f, v), |Prefix(line)| + |FlagText(f)|;
            k <= |r| && r[k..] == v + Comma(line)
  {
    hide Prefix, Comma, Stem;
    assert Rewritten(line, f, v) == Prefix(line) + FlagText(f) + (v + Comma(line));
  }

  lemma FlagComesFirst(line: string, f: Flag, v: string)
    ensures Find(Rewritten(line, f, v), FlagText(f)) == Some(|Prefix(line)|)
  {
    hide Prefix, Comma, Stem, NoEq, Find, OccursAt, Contains;
    var a, b, r, t := Prefix(line) + Stem(f), v + Comma(line), Rewritten(line, f, v), FlagText(f);
    assert r == a + "=" + b;
    assert r == Prefix(line) + t + b;
    PrefixHasNoEq(line);
    StemHasNoEq(f);
    NoEqAppend(Prefix(line), Stem(f));
    OccursInMiddle(Prefix(line), t, b);
    forall j: nat | j < |Prefix(line)| ensures !OccursAt(r, t, j) {
      if OccursAt(r, t, j) {
        FlagPlace(a, b, f, j);
      }
    }
    FindIs(r, t, |Prefix(line)|);
  }

  lemma NoEqAppend(a: string, b: string)
    ensures NoEq(a + b) <==> NoEq(a) && NoEq(b)
  {
    if NoEq(a + b) {
      assert forall i :: 0 <= i < |a| ==> a[i] == (a + b)[i];
      assert forall i :: 0 <= i < |b| ==> b[i] == (a + b)[|a| + i];
    }
  }

  lemma LineValueAt(r: string, f: Flag, i: nat, v: string)
    requires Find(r, FlagText(f)) == Some(i) && i + |FlagText(f)| <= |r|
    requires ValueAfter(r[i + |FlagText(f)|..]) == v && v != ""
    ensures LineValue(r, f) == Some(v)
  {
    hide Find, ValueAfter, Stem;
  }

  lemma ClusterEnds(name: string, ip: string)
    requires CleanName(name)
    ensures ReadableValue(ClusterOf(name, ip))
  {
    assert InitialCluster.CleanChar(name[0]);
    assert ClusterOf(name, ip)[0] == name[0];
    assert ClusterOf(name, ip)[|ClusterOf(name, ip)| - 1] == '0';
  }

  lemma {:induction false} ValueAfterComma(v: string, comma: string)
    requires ReadableValue(v) && (comma == "" || comma == ",")
    ensures ValueAfter(v + comma) == v
  {
    hide *;
    ReadableStart(v, comma);
    TrimKeeps(v + comma);
    QuoteStays(v + comma);
    CommaIsTrimmed(v, comma);
    ValueAfterIs(v + comma);
  }

  lemma ReadableStart(v: string, comma: string)
    requires ReadableValue(v) && (comma == "" || comma == ",")
    ensures var s := v + comma; s != "" && s[0] !in WHITESPACE && s[0] != '"' && s[|s| - 1] !in WHITESPACE
  {
  }

  lemma CommaIsTrimmed(v: string, comma: string)
    requires ReadableValue(v) && (comma == "" || comma == ",")
    ensures TrimRight(v + comma, {'"', ',', ' '}) == v
  {
    hide TrimRight, WHITESPACE;
    TrimRightPadded(v, comma, {'"', ',', ' '});
  }

  lemma ValueAfterIs(s: string)
    ensures ValueAfter(s) == TrimRight(TrimLeft(Trim(s), {'"'}), {'"', ',', ' '})
  {
  }

  lemma QuoteStays(s: string)
    requires s != "" && s[0] != '"'
    ensures TrimLeft(s, {'"'}) == s
  {
  }

  /** All lines with the member list agree on it. */
  predicate ClusterIs(lines: seq<string>, v: string) {
    forall l :: l in lines && Has(l, Cluster) ==> LineValue(l, Cluster) == Some(v)
  }

  lemma {:induction false} AgreedValue(lines: seq<string>, v: string)
    requires ClusterIs(lines, v)
    ensures FlagValue(lines, Cluster) == if AnyCluster(lines) then Some(v) else None
  {
    hide LineValue, Has;
    if lines != [] {
      assert lines == [lines[0]] + lines[1..];
      AgreedValue(lines[1..], v);
      NoFlagNoValue(lines[0], Cluster);
      assert AnyCluster(lines) <==> Has(lines[0], Cluster) || AnyCluster(lines[1..]);
    }
  }

  lemma NoFlagNoValue(line: string, f: Flag)
    ensures !Has(line, f) ==> LineValue(line, f).None?
  {
  }

  /** Finalizing leaves the member list exactly on the lines that held one. */
  lemma FinalizedCluster(lines: seq<string>, name: string, ip: string)
    requires PassesName(name) && GoodIp(ip)
    ensures var out := Finalize(lines, name, ip);
            ClusterIs(out, ClusterOf(name, ip)) && (AnyCluster(out) <==> AnyCluster(Strip(lines)))
  {
    hide Strip, Has, Rewritten, LineValue, PassesName, GoodIp, ClusterOf;
    var s, out := Strip(lines), Finalize(lines, name, ip);
    assert |out| == |s|;
    forall k | 0 <= k < |out|
      ensures Has(out[k], Cluster) <==> Has(s[k], Cluster)
      ensures Has(out[k], Cluster) ==> LineValue(out[k], Cluster) == Some(ClusterOf(name, ip))
    {
      FinalizedLine(s[k], name, ip);
    }
    forall l | l in out && Has(l, Cluster) ensures LineValue(l, Cluster) == Some(ClusterOf(name, ip)) {
      var k :| 0 <= k < |out| && out[k] == l;
    }
    if AnyCluster(out) {
      var l :| l in out && Has(l, Cluster);
      var k :| 0 <= k < |out| && out[k] == l;
      assert s[k] in s;
    }
    if AnyCluster(s) {
      var l :| l in s && Has(l, Cluster);
      var k :| 0 <= k < |s| && s[k] == l;
      assert out[k] in out;
    }
  }

  lemma FinalizedLine(line: string, name: string, ip: string)
    requires PassesName(name) && GoodIp(ip)
    ensures var v := ClusterOf(name, ip);
            var r := ReplaceLine(ReplaceLine(line, Cluster, v), ClusterState, "existing");
            (Has(r, Cluster) <==> Has(line, Cluster)) && (Has(r, Cluster) ==> LineValue(r, Cluster) == Some(v))
  {
    hide Has, Rewritten, LineValue, CleanName, GoodIp, ClusterOf, EndsWith, Stem;
    FlagsOfCluster(line, name, ip, Cluster);
    FlagsOfCluster(line, name, ip, ClusterState);
    FlagsOfPlain(line, ClusterState, "existing", Cluster);
    RewrittenClusterValue(line, name, ip);
  }

  /** The manifest keeps its member list through a forced new cluster. */
  predicate ListSurvives(lines: seq<string>, name: string, ip: string) {
    (exists l :: l in lines && KeepsCluster(l)) && (EndsWith(name, Stem(Listen)) ==> Wide(Patch(lines, name, ip)))
  }

  /** The member list of a manifest after a forced new cluster. */
  lemma ForcedCluster(lines: seq<string>, name: string, ip: string)
    requires PassesName(name) && GoodIp(ip)
    ensures FlagValue(Forced(lines, name, ip), Cluster)
         == if ListSurvives(lines, name, ip) then Some(ClusterOf(name, ip)) else None
  {
    hide Patch, Finalize, ListenAll, PassesName, GoodIp, Has, ClusterOf, Acting, AnyCluster, ClusterIs, FlagValue,
      Strip, EndsWith, Stem, Wide;
    var p := Patch(lines, name, ip);
    ClusterAfterPatch(lines, name, ip);
    forall l | l in p && Has(l, Cluster) ensures Has(l, Listen) <==> EndsWith(name, Stem(Listen)) {
      PatchedClusterLines(lines, name, ip, l);
    }
    ClusterAfterListen(p, EndsWith(name, Stem(Listen)));
    FinalizedCluster(ListenAll(p), name, ip);
    AgreedValue(Forced(lines, name, ip), ClusterOf(name, ip));
  }

  lemma ClusterParses(name: string, ip: string)
    requires CleanName(name) && GoodIp(ip)
    ensures InitialCluster.Parse(ClusterOf(name, ip)) == [InitialCluster.Peer(name, ip)]
  {
    hide InitialCluster.Parse, InitialCluster.ParsePart, InitialCluster.CleanText;
    var e := InitialCluster.Plain(ip, "2380");
    InitialCluster.ParseEntry(name, e);
    assert ClusterOf(name, ip) == InitialCluster.Entry(name, InitialCluster.UrlOf(e));
    var parts := [ClusterOf(name, ip)];
    InitialCluster.ParseJoined(parts, [InitialCluster.Peer(name, ip)]);
    assert InitialCluster.JoinWith(parts, ',') == ClusterOf(name, ip);
  }

  lemma NothingParses()
    ensures InitialCluster.Parse("") == []
  {
    hide InitialCluster.ParsePart, InitialCluster.SplitOn, InitialCluster.ParseParts;
    SplitNothing();
    ParseNothing();
  }

  lemma SplitNothing()
    ensures InitialCluster.SplitOn("", ',') == [""]
  {
  }

  lemma ParseNothing()
    ensures InitialCluster.ParseParts([""]) == []
  {
    hide Trim, InitialCluster.HostOf, InitialCluster.ParseParts;
    TrimKeeps("");
    assert InitialCluster.ParsePart("") == None;
    ParseOnePart("");
  }

  lemma ParseOnePart(part: string)
    requires InitialCluster.ParsePart(part) == None
    ensures InitialCluster.ParseParts([part]) == []
  {
    hide InitialCluster.ParsePart;
    assert [part][1..] == [];
  }

  predicate ShouldForceNewCluster(memberCount: nat, ipChanged: bool, localUp: bool) {
    localUp && (ipChanged || memberCount >= 3)
  }

  predicate ContainsIp(spec: string, address: string) {
    var ip, peers := Trim(address), InitialCluster.Parse(spec);
    ip != "" && exists i :: 0 <= i < |peers| && peers[i].host == ip
  }

  /** The decision of `heal_etcd_membership` once no leader was found: the members it counts in
      the manifest, and whether it forces a new cluster. */
  function Members(lines: seq<string>): seq<InitialCluster.Peer> {
    match FlagValue(lines, Cluster)
    case None => InitialCluster.Parse("")
    case Some(spec) => InitialCluster.Parse(spec)
  }

  predicate HealForces(lines: seq<string>, ip: string, marked: bool, localUp: bool) {
    var spec := match FlagValue(lines, Cluster) case None => "" case Some(v) => v;
    var name := match FlagValue(lines, Name) case None => "pertisk-cp-1" case Some(v) => v;
    InitialCluster.IsHealLeader(name, spec)
      && ShouldForceNewCluster(|InitialCluster.Parse(spec)|, marked || !ContainsIp(spec, ip), localUp)
  }

  /** Healing converges exactly when the manifest keeps its member list: then the healed manifest
      reads as this one member at this address and no later heal at this address forces again;
      else it reads as no member at all and every later heal of a `-cp-1` node does. */
  lemma HealingConverges(lines: seq<string>, name: string, ip: string, localUp: bool)
    requires PassesName(name) && GoodIp(ip)
    ensures var healed := Forced(lines, name, ip);
            var keeps := ListSurvives(lines, name, ip);
            && Members(healed) == (if keeps then [InitialCluster.Peer(name, ip)] else [])
            && (keeps ==> !HealForces(healed, ip, false, localUp))
            && (!keeps ==> (HealForces(healed, ip, false, localUp)
                 <==> localUp
                      && IsFirstNode(match FlagValue(healed, Name) case None => "pertisk-cp-1" case Some(v) => v)))
  {
    hide Forced, CleanName, GoodIp, FlagValue, ListSurvives, ClusterOf, InitialCluster.Parse, IsFirstNode,
      InitialCluster.IsHealLeader, EndsWith, Stem;
    ForcedCluster(lines, name, ip);
    ClusterParses(name, ip);
    NothingParses();
    AddressIsTrimmed(ip);
    LeaderOfNothing(match FlagValue(Forced(lines, name, ip), Name) case None => "pertisk-cp-1" case Some(v) => v);
    if ListSurvives(lines, name, ip) {
      assert InitialCluster.Parse(ClusterOf(name, ip))[0].host == ip;
    }
  }

  predicate IsFirstNode(name: string) { EndsWith(Trim(name), "-cp-1") || EndsWith(Trim(name), "-cp1") }

  lemma LeaderOfNothing(name: string)
    ensures InitialCluster.IsHealLeader(name, "") <==> IsFirstNode(name)
  {
    hide InitialCluster.Parse, Trim, EndsWith;
    NothingParses();
  }

  lemma AddressIsTrimmed(ip: string)
    requires GoodIp(ip)
    ensures Trim(ip) == ip && ip != ""
  {
    hide Trim;
    assert InitialCluster.CleanChar(ip[0]) && InitialCluster.CleanChar(ip[|ip| - 1]);
    TrimKeeps(ip);
  }

  /** One line that holds two of the flags loses its member list to the earlier rewrite. */
  lemma SharedLineLosesTheList(rest: string, spec: string, name: string, ip: string)
    requires PassesName(name) && GoodIp(ip)
    ensures var line := FlagText(Name) + rest + FlagText(Cluster) + spec;
            Has(line, Cluster) && Members(Forced([line], name, ip)) == []
  {
    hide OccursAt, Contains, Forced, PassesName, GoodIp, Stem, Members, Wide, EndsWith;
    var line := FlagText(Name) + rest + FlagText(Cluster) + spec;
    OccursInMiddle(FlagText(Name) + rest, FlagText(Cluster), spec);
    OccursInMiddle("", FlagText(Name), rest + FlagText(Cluster) + spec);
    assert "" + FlagText(Name) + (rest + FlagText(Cluster) + spec) == line;
    HealingConverges([line], name, ip, true);
  }

  // ----- which names keep the list

  /** A node whose name ends like the state flag makes the last rewrite hit its own member-list
      line, so that every manifest ends without a list. */
  lemma {:induction false} FlagInNameLosesTheList(lines: seq<string>, name: string, ip: string)
    requires NoEq(name) && EndsWith(name, Stem(ClusterState))
    ensures Members(Forced(lines, name, ip)) == []
  {
    hide Has, ReplaceLine, Stem, EndsWith, NoEq, Patch, ListenAll, Strip, LineValue, FlagValue, InitialCluster.Parse;
    var s, out := Strip(ListenAll(Patch(lines, name, ip))), Forced(lines, name, ip);
    forall l | l in out ensures !Has(l, Cluster) {
      var k :| 0 <= k < |out| && out[k] == l;
      ListLineIsHit(s[k], name, ip);
    }
    AgreedValue(out, "");
    NothingParses();
  }

  lemma ListLineIsHit(line: string, name: string, ip: string)
    requires NoEq(name) && EndsWith(name, Stem(ClusterState))
    ensures !Has(ReplaceLine(ReplaceLine(line, Cluster, ClusterOf(name, ip)), ClusterState, "existing"), Cluster)
  {
    hide Has, Rewritten, Stem, EndsWith, Comma, PeerUrl;
    var v := ClusterOf(name, ip);
    FlagsOfRewritten(line, Cluster, v, ClusterState);
    FlagInPair(name, PeerUrl(ip) + Comma(line), ClusterState);
    assert v + Comma(line) == name + "=" + (PeerUrl(ip) + Comma(line));
    FlagsOfPlain(ReplaceLine(line, Cluster, v), ClusterState, "existing", Cluster);
  }

  lemma LocalListenFlags(g: Flag)
    ensures Has(LISTEN_LOCAL, g) <==> g == Listen
  {
    hide Has, EndsWith;
    var w := "https://127.0.0.1:2379";
    LocalListenText(w);
    StemHasNoEq(Listen);
    FlagInPair(Stem(Listen), w, g);
    assert "" + Stem(Listen) == Stem(Listen);
    EndsInOneStem("", Listen, g);
    NoFlagWithoutEq(w, g);
  }

  lemma LocalListenText(w: string)
    requires w == "https://127.0.0.1:2379"
    ensures LISTEN_LOCAL == Stem(Listen) + "=" + w && NoEq(w) && Contains(LISTEN_LOCAL, LISTEN_LOCAL)
  {
    assert OccursAt(LISTEN_LOCAL, LISTEN_LOCAL, 0);
  }

  /** A manifest with an empty member list that still listens locally. */
  const NARROW: seq<string> := ["--initial-cluster=", LISTEN_LOCAL]

  lemma NarrowIsWidened(name: string, ip: string)
    requires PassesName(name) && GoodIp(ip)
    ensures KeepsCluster(NARROW[0]) && !Wide(Patch(NARROW, name, ip))
  {
    hide PassesName, GoodIp, Has, Forces, PatchLine, Replaced, Contains, Core, Inserted, Stem;
    var r, p := Replaced(NARROW, name, ip), Patch(NARROW, name, ip);
    ReplacedIsPatched(NARROW, name, ip);
    forall g: Flag ensures Has(LISTEN_LOCAL, g) <==> g == Listen {
      LocalListenFlags(g);
    }
    LocalListenText("https://127.0.0.1:2379");
    UntouchedLine(LISTEN_LOCAL, name, ip);
    assert r[1] == LISTEN_LOCAL;
    InsertedKeeps(r, r[1]);
    var k :| 0 <= k < |p| && p[k] == LISTEN_LOCAL;
    EmptyListLine();
  }

  lemma EmptyListLine()
    ensures KeepsCluster("--initial-cluster=")
  {
    hide Has, EndsWith;
    assert "--initial-cluster=" == Stem(Cluster) + "=" + "" && "" + Stem(Cluster) == Stem(Cluster);
    forall g: Flag ensures Has("--initial-cluster=", g) <==> g == Cluster {
      StemHasNoEq(Cluster);
      FlagInPair(Stem(Cluster), "", g);
      EndsInOneStem("", Cluster, g);
      NoFlagWithoutEq("", g);
    }
  }

  /** The clean names under which every manifest with a member list keeps it through a forced new
      cluster are those that end neither like the state flag nor like the listen flag. */
  lemma {:induction false} NamesThatKeepTheList(name: string, ip: string)
    requires CleanName(name) && GoodIp(ip)
    ensures SafeName(name)
       <==> forall lines :: (exists l :: l in lines && KeepsCluster(l))
              ==> Members(Forced(lines, name, ip)) == [InitialCluster.Peer(name, ip)]
  {
    hide CleanName, GoodIp, KeepsCluster, Forced, Members, EndsWith, Stem, Wide;
    if SafeName(name) {
      forall lines | exists l :: l in lines && KeepsCluster(l)
        ensures Members(Forced(lines, name, ip)) == [InitialCluster.Peer(name, ip)]
      {
        HealingConverges(lines, name, ip, true);
      }
    } else {
      EmptyListLine();
      assert NARROW[0] in NARROW && KeepsCluster(NARROW[0]);
      if PassesName(name) {
        NarrowIsWidened(name, ip);
        HealingConverges(NARROW, name, ip, true);
      } else {
        CleanNameFacts(name);
        FlagInNameLosesTheList(NARROW, name, ip);
      }
    }
  }
}
