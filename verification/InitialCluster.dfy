/** The `name=url,...` lists of etcd members (`crates/pertisk-bootstrap/src/join.rs`,
    `crates/pertisk-bootstrap/src/etcd_backup.rs`). */
module InitialCluster {
  import opened Text

  // How the join code prints these lists (`initial_cluster_from_members`), how the healer parses
  // them (`parse_etcd_initial_cluster`), and which node they make the healer (`is_etcd_heal_leader`).

  // ----- parsing

  function SplitOn(s: string, c: char): (r: seq<string>)
    ensures r != []
    decreases |s|
  {
    match FindChar(s, c)
    case None => [s]
    case Some(i) => [s[..i]] + SplitOn(s[i + 1..], c)
  }

  function FindLast(s: string, c: char): (r: Option<nat>)
    ensures r.Some? ==> r.value < |s|
  {
    if s == "" then None
    else if s[|s| - 1] == c then Some(|s| - 1)
    else FindLast(s[..|s| - 1], c)
  }

  /** The part of `rsplit_once(c)` before the last `c`, or everything. */
  function BeforeLast(s: string, c: char): string {
    match FindLast(s, c)
    case None => s
    case Some(i) => s[..i]
  }

  function HostOf(url: string): string {
    var bare := TrimPrefixes(TrimPrefixes(Trim(url), "https://"), "http://");
    var hostPort := BeforeFirst(bare, '/');
    if hostPort != "" && hostPort[0] == '[' then BeforeFirst(hostPort[1..], ']')
    else BeforeLast(hostPort, ':')
  }

  datatype Peer = Peer(name: string, host: string)

  function ParsePart(text: string): Option<Peer> {
    var part := Trim(text);
    match FindChar(part, '=')
    case None => None
    case Some(i) =>
      var name, host := part[..i], HostOf(part[i + 1..]);
      if name != "" && host != "" then Some(Peer(name, host)) else None
  }

  function ParseParts(parts: seq<string>): seq<Peer> {
    if parts == [] then []
    else (match ParsePart(parts[0]) case None => [] case Some(p) => [p]) + ParseParts(parts[1..])
  }

  function Parse(spec: string): seq<Peer> {
    ParseParts(SplitOn(spec, ','))
  }

  method ParseEtcdInitialCluster(spec: string) returns (out: seq<Peer>)
    ensures out == Parse(spec)
  {
    hide *;
    var parts := SplitOn(spec, ',');
    ParseIs(spec, parts);
    out := [];
    for k := 0 to |parts|
      invariant out + ParseParts(parts[k..]) == Parse(spec)
    {
      ParseStep(out, parts, k);
      match ParsePart(parts[k]) {
        case None =>
        case Some(p) => out := out + [p];
      }
    }
    assert out + [] == out;
  }

  lemma ParseIs(spec: string, parts: seq<string>)
    requires parts == SplitOn(spec, ',')
    ensures [] + ParseParts(parts[0..]) == Parse(spec) && ParseParts(parts[|parts|..]) == []
  {
    hide SplitOn, ParsePart;
    assert parts[0..] == parts;
  }

  lemma ParseStep(out: seq<Peer>, parts: seq<string>, k: nat)
    requires k < |parts|
    ensures out + ParseParts(parts[k..])
         == (match ParsePart(parts[k]) case None => out case Some(p) => out + [p]) + ParseParts(parts[k + 1..])
  {
    hide ParsePart;
    assert parts[k..][1..] == parts[k + 1..];
  }

  // ----- printing

  datatype Member = Member(id: nat, name: string, peerUrls: seq<string>)

  function Decimal(n: nat): (r: string)
    ensures r != "" && forall i :: 0 <= i < |r| ==> '0' <= r[i] <= '9'
  {
    var digit := [('0' as int + n % 10) as char];
    if n < 10 then digit else Decimal(n / 10) + digit
  }

  /** The name a member is listed under: its own, or the joiner's while it is unnamed but has the
      joiner's URL, or its number. */
  function EntryName(m: Member, name: string, peerUrl: string): string {
    if m.name != "" then m.name
    else if peerUrl in m.peerUrls then name
    else Decimal(m.id)
  }

  function EntryUrl(m: Member, peerUrl: string): string {
    if m.name == "" && peerUrl in m.peerUrls then peerUrl
    else if m.peerUrls == [] then peerUrl
    else m.peerUrls[0]
  }

  function Entry(name: string, url: string): string { name + "=" + url }

  function Entries(members: seq<Member>, name: string, peerUrl: string): (r: seq<string>)
    ensures |r| == |members|
    ensures forall i :: 0 <= i < |r| ==>
              r[i] == Entry(EntryName(members[i], name, peerUrl), EntryUrl(members[i], peerUrl))
  {
    seq(|members|, i requires 0 <= i < |members| =>
      Entry(EntryName(members[i], name, peerUrl), EntryUrl(members[i], peerUrl)))
  }

  function WithJoiner(parts: seq<string>, name: string, peerUrl: string): seq<string> {
    if exists i :: 0 <= i < |parts| && name + "=" <= parts[i] then parts else parts + [Entry(name, peerUrl)]
  }

  /** Byte order of strings. */
  predicate Less(a: string, b: string) {
    b != "" && (a == "" || a[0] < b[0] || (a[0] == b[0] && Less(a[1..], b[1..])))
  }

  function Insert(x: string, sorted: seq<string>): seq<string> {
    if sorted == [] || !Less(sorted[0], x) then [x] + sorted else [sorted[0]] + Insert(x, sorted[1..])
  }

  function Sort(parts: seq<string>): seq<string> {
    if parts == [] then [] else Insert(parts[0], Sort(parts[1..]))
  }

  /** `dedup`: of equal neighbours one stays. */
  function Dedup(parts: seq<string>): seq<string> {
    if |parts| <= 1 then parts
    else if parts[0] == parts[1] then Dedup(parts[1..])
    else [parts[0]] + Dedup(parts[1..])
  }

  function JoinWith(parts: seq<string>, c: char): string {
    if parts == [] then ""
    else if |parts| == 1 then parts[0]
    else parts[0] + [c] + JoinWith(parts[1..], c)
  }

  function InitialClusterOf(members: seq<Member>, name: string, peerUrl: string): string {
    JoinWith(Dedup(Sort(WithJoiner(Entries(members, name, peerUrl), name, peerUrl))), ',')
  }

  /** `initial_cluster_from_members`, up to sorting. */
  method InitialClusterFromMembers(members: seq<Member>, name: string, peerUrl: string) returns (spec: string)
    ensures spec == InitialClusterOf(members, name, peerUrl)
  {
    var parts: seq<string> := [];
    for k := 0 to |members|
      invariant |parts| == k
      invariant forall i :: 0 <= i < k ==>
                  parts[i] == Entry(EntryName(members[i], name, peerUrl), EntryUrl(members[i], peerUrl))
    {
      var m := members[k];
      var peer := if m.peerUrls == [] then peerUrl else m.peerUrls[0];
      if m.name == "" {
        if peerUrl in m.peerUrls {
          parts := parts + [Entry(name, peerUrl)];
        } else {
          parts := parts + [Entry(Decimal(m.id), peer)];
        }
      } else {
        parts := parts + [Entry(m.name, peer)];
      }
    }
    assert parts == Entries(members, name, peerUrl);
    if !exists i :: 0 <= i < |parts| && name + "=" <= parts[i] {
      parts := parts + [Entry(name, peerUrl)];
    }
    spec := JoinWith(Dedup(Sort(parts)), ',');
  }

  // ----- the byte order, sorting

  lemma {:induction false} LessTrichotomy(a: string, b: string)
    ensures Less(a, b) || a == b || Less(b, a)
    ensures !(Less(a, b) && Less(b, a))
    ensures !Less(a, a)
  {
    if a != "" {
      if b != "" {
        LessTrichotomy(a[1..], b[1..]);
        assert a[0] == b[0] && a[1..] == b[1..] ==> a == b by {
          assert a == [a[0]] + a[1..] && b == [b[0]] + b[1..];
        }
      }
      LessTrichotomy(a[1..], a[1..]);
    }
  }

  lemma {:induction false} LessTransitive(a: string, b: string, c: string)
    requires Less(a, b) && Less(b, c)
    ensures Less(a, c)
  {
    if a != "" && a[0] == b[0] && b[0] == c[0] {
      LessTransitive(a[1..], b[1..], c[1..]);
    }
  }

  lemma {:induction false} LessAfterPrefix(prefix: string, a: string, b: string)
    ensures Less(prefix + a, prefix + b) <==> Less(a, b)
  {
    if prefix == "" {
      assert prefix + a == a && prefix + b == b;
    } else {
      assert (prefix + a)[1..] == prefix[1..] + a && (prefix + b)[1..] == prefix[1..] + b;
      LessAfterPrefix(prefix[1..], a, b);
    }
  }

  /** No later element is smaller. */
  ghost predicate Sorted(parts: seq<string>) {
    forall i, j :: 0 <= i < j < |parts| ==> !Less(parts[j], parts[i])
  }

  ghost predicate StrictlySorted(parts: seq<string>) {
    forall i, j :: 0 <= i < j < |parts| ==> Less(parts[i], parts[j])
  }

  lemma {:induction false} InsertMembers(x: string, sorted: seq<string>)
    ensures forall p :: p in Insert(x, sorted) <==> p == x || p in sorted
  {
    if !(sorted == [] || !Less(sorted[0], x)) {
      InsertMembers(x, sorted[1..]);
      assert sorted == [sorted[0]] + sorted[1..];
    }
  }

  lemma {:induction false} InsertSorts(x: string, sorted: seq<string>)
    requires Sorted(sorted)
    ensures Sorted(Insert(x, sorted))
  {
    hide Less;
    if sorted == [] {
    } else if !Less(sorted[0], x) {
      forall j | 0 <= j < |sorted| ensures !Less(sorted[j], x) {
        if Less(sorted[j], x) {
          LessTrichotomy(sorted[j], sorted[0]);
          if Less(sorted[0], sorted[j]) {
            LessTransitive(sorted[0], sorted[j], x);
          }
        }
      }
    } else {
      var tail := Insert(x, sorted[1..]);
      InsertSorts(x, sorted[1..]);
      InsertMembers(x, sorted[1..]);
      LessTrichotomy(sorted[0], x);
      forall j | 0 <= j < |tail| ensures !Less(tail[j], sorted[0]) {
        assert tail[j] in tail;
      }
    }
  }

  lemma {:induction false} SortSorts(parts: seq<string>)
    ensures Sorted(Sort(parts))
    ensures forall p :: p in Sort(parts) <==> p in parts
  {
    if parts != [] {
      SortSorts(parts[1..]);
      InsertSorts(parts[0], Sort(parts[1..]));
      InsertMembers(parts[0], Sort(parts[1..]));
      assert parts == [parts[0]] + parts[1..];
    }
  }

  lemma {:induction false} DedupSorted(parts: seq<string>)
    requires Sorted(parts)
    ensures StrictlySorted(Dedup(parts))
    ensures forall p :: p in Dedup(parts) <==> p in parts
  {
    hide Less;
    if |parts| > 1 {
      var rest := parts[1..];
      DedupSorted(rest);
      assert parts == [parts[0]] + rest;
      if parts[0] != parts[1] {
        LessTrichotomy(parts[0], parts[1]);
        assert Less(parts[0], parts[1]);
        var tail := Dedup(rest);
        forall j | 0 <= j < |tail| ensures Less(parts[0], tail[j]) {
          assert tail[j] in rest;
          var i :| 0 <= i < |rest| && rest[i] == tail[j];
          LessTrichotomy(parts[1], rest[i]);
          if parts[1] != rest[i] {
            assert i > 0 && !Less(rest[i], rest[0]);
            LessTransitive(parts[0], parts[1], rest[i]);
          }
        }
      }
    }
  }

  /** Sorting and deduplicating gives the same parts, each once, in byte order. */
  lemma SortDedup(parts: seq<string>)
    ensures StrictlySorted(Dedup(Sort(parts)))
    ensures forall p :: p in Dedup(Sort(parts)) <==> p in parts
  {
    SortSorts(parts);
    DedupSorted(Sort(parts));
  }

  // ----- parsing what was printed

  /** Where a member listens: a host name or IPv4 address, or a bracketed IPv6 address. */
  datatype Endpoint = Plain(host: string, port: string) | Bracketed(host: string, port: string)

  function HostPort(e: Endpoint): string {
    match e
    case Plain(host, port) => host + ":" + port
    case Bracketed(host, port) => "[" + (host + "]" + (":" + port))
  }

  function UrlOf(e: Endpoint): string { "https://" + HostPort(e) }

  predicate CleanChar(c: char) { c != ',' && c != '=' && c != '/' && c !in WHITESPACE }

  predicate CleanText(s: string) { s != "" && forall i :: 0 <= i < |s| ==> CleanChar(s[i]) }

  predicate CleanEndpoint(e: Endpoint) {
    CleanText(e.host) && CleanText(e.port) && ':' !in e.port
    && '[' !in e.host && ']' !in e.host
  }

  lemma {:induction false} FindLastIs(before: string, c: char, after: string)
    requires c !in after
    ensures FindLast(before + [c] + after, c) == Some(|before|)
  {
    var s := before + [c] + after;
    if after != "" {
      assert s[..|s| - 1] == before + [c] + after[..|after| - 1];
      FindLastIs(before, c, after[..|after| - 1]);
    }
  }

  lemma BeforeLastIs(before: string, c: char, after: string)
    requires c !in after
    ensures BeforeLast(before + [c] + after, c) == before
  {
    FindLastIs(before, c, after);
  }

  lemma BeforeFirstIs(before: string, c: char, after: string)
    requires c !in before
    ensures BeforeFirst(before + [c] + after, c) == before
    ensures BeforeFirst(before, c) == before
  {
    FindCharIs(before, c, after);
    assert (before + [c] + after)[..|before|] == before;
  }

  lemma NoSchemeWithoutSlash(s: string, p: string, i: nat)
    requires '/' !in s && i < |p| && p[i] == '/'
    ensures TrimPrefixes(s, p) == s
  {
    if p <= s {
      PrefixChar(s, p, i);
    }
  }

  lemma PrefixChar(s: string, p: string, i: nat)
    requires p <= s && i < |p|
    ensures p[i] in s
  {
    assert s[i] == p[i];
  }

  lemma CleanHasNone(s: string)
    requires CleanText(s)
    ensures '/' !in s && ',' !in s && '=' !in s
    ensures s[0] !in WHITESPACE && s[|s| - 1] !in WHITESPACE
  {
    assert CleanChar(s[0]) && CleanChar(s[|s| - 1]);
  }

  lemma CleanNotEmpty(s: string)
    requires CleanText(s)
    ensures s != ""
  {
  }

  lemma HostPortIsClean(e: Endpoint)
    requires CleanEndpoint(e)
    ensures CleanText(HostPort(e))
  {
  }

  lemma HostOfUrl(e: Endpoint)
    requires CleanEndpoint(e)
    ensures HostOf(UrlOf(e)) == e.host
  {
    hide CleanText, CleanChar, TrimPrefixes, BeforeLast, BeforeFirst, Trim, HostPort;
    var hp := HostPort(e);
    var url := UrlOf(e);
    HostPortIsClean(e);
    UrlIsTrimmed(hp);
    SchemeGoes(hp);
    BeforeFirstIs(hp, '/', "");
    HostOfHostPort(e);
  }

  lemma UrlIsTrimmed(hp: string)
    requires CleanText(hp)
    ensures '/' !in hp && Trim("https://" + hp) == "https://" + hp
  {
    hide TrimStart, TrimEnd, Trim, CleanText;
    var url := "https://" + hp;
    CleanHasNone(hp);
    CleanNotEmpty(hp);
    assert url[0] == 'h' && url[|url| - 1] == hp[|hp| - 1];
    TrimKeeps(url);
  }

  lemma SchemeGoes(hp: string)
    requires '/' !in hp
    ensures TrimPrefixes(TrimPrefixes("https://" + hp, "https://"), "http://") == hp
  {
    var p := "https://";
    NoSchemeWithoutSlash(hp, p, 6);
    NoSchemeWithoutSlash(hp, "http://", 5);
    assert (p + hp)[|p|..] == hp;
  }

  lemma HostOfHostPort(e: Endpoint)
    requires CleanEndpoint(e)
    ensures var hp := HostPort(e);
            (if hp != "" && hp[0] == '[' then BeforeFirst(hp[1..], ']') else BeforeLast(hp, ':')) == e.host
  {
    var hp := HostPort(e);
    match e
    case Plain(host, port) =>
      assert hp[0] == host[0] && host[0] in host;
      assert hp == host + [':'] + port;
      BeforeLastIs(host, ':', port);
    case Bracketed(host, port) =>
      assert hp[1..] == host + [']'] + (":" + port);
      BeforeFirstIs(host, ']', ":" + port);
  }

  /** Each printed entry is read back as its name and host. */
  lemma ParseEntry(name: string, e: Endpoint)
    requires CleanText(name) && CleanEndpoint(e)
    ensures ParsePart(Entry(name, UrlOf(e))) == Some(Peer(name, e.host))
    ensures ',' !in Entry(name, UrlOf(e))
  {
    hide TrimStart, TrimEnd, HostOf, FindChar, CleanEndpoint, HostPort;
    var url := UrlOf(e);
    var part := Entry(name, url);
    HostPortIsClean(e);
    EntryIsTrimmed(name, HostPort(e));
    HostOfUrl(e);
    assert part == name + ['='] + url;
    FindCharIs(name, '=', url);
    assert part[..|name|] == name && part[|name| + 1..] == url;
    assert e.host != "" by { EndpointHost(e); }
  }

  lemma EndpointHost(e: Endpoint)
    requires CleanEndpoint(e)
    ensures e.host != ""
  {
  }

  lemma EntryIsTrimmed(name: string, hp: string)
    requires CleanText(name) && CleanText(hp)
    ensures var part := Entry(name, "https://" + hp); Trim(part) == part && ',' !in part
    ensures '=' !in name
  {
    var part := Entry(name, "https://" + hp);
    hide TrimStart, TrimEnd, Trim, CleanText;
    CleanHasNone(name);
    CleanHasNone(hp);
    CleanNotEmpty(name);
    CleanNotEmpty(hp);
    assert part[0] == name[0] && part[|part| - 1] == hp[|hp| - 1];
    TrimKeeps(part);
  }

  lemma {:induction false} SplitOnJoined(parts: seq<string>, c: char)
    requires parts != [] && forall i :: 0 <= i < |parts| ==> c !in parts[i]
    ensures SplitOn(JoinWith(parts, c), c) == parts
  {
    if |parts| == 1 {
      assert parts == [parts[0]];
    } else {
      var tail := JoinWith(parts[1..], c);
      SplitOnJoined(parts[1..], c);
      FindCharIs(parts[0], c, tail);
      var s := parts[0] + [c] + tail;
      assert s[..|parts[0]|] == parts[0] && s[|parts[0]| + 1..] == tail;
    }
  }

  /** The parts are printed entries of these peers. */
  ghost predicate PartsOf(parts: seq<string>, peers: seq<Peer>) {
    |parts| == |peers| && forall i :: 0 <= i < |parts| ==> ParsePart(parts[i]) == Some(peers[i]) && ',' !in parts[i]
  }

  lemma {:induction false} ParseOfParts(parts: seq<string>, peers: seq<Peer>)
    requires PartsOf(parts, peers)
    ensures ParseParts(parts) == peers
  {
    hide ParsePart;
    if parts != [] {
      ParseOfParts(parts[1..], peers[1..]);
    }
  }

  lemma ParseJoined(parts: seq<string>, peers: seq<Peer>)
    requires parts != [] && PartsOf(parts, peers)
    ensures Parse(JoinWith(parts, ',')) == peers
  {
    hide ParsePart;
    SplitOnJoined(parts, ',');
    ParseOfParts(parts, peers);
  }

  // ----- the round trip

  /** Every member lists one clean URL, and has a clean name or none yet. */
  ghost predicate Listed(members: seq<Member>, eps: seq<Endpoint>) {
    && |members| == |eps|
    && forall i :: 0 <= i < |members| ==>
         && CleanEndpoint(eps[i]) && members[i].peerUrls == [UrlOf(eps[i])]
         && (members[i].name == "" || CleanText(members[i].name))
  }

  lemma EntryNameIsClean(m: Member, name: string, url: string)
    requires CleanText(name) && (m.name == "" || CleanText(m.name))
    ensures CleanText(EntryName(m, name, url))
  {
  }

  /** The name and host of every member, and of the joiner when nobody is listed under its name. */
  ghost predicate Expected(members: seq<Member>, eps: seq<Endpoint>, name: string, joiner: Endpoint, p: Peer)
    requires |members| == |eps|
  {
    || (exists i :: 0 <= i < |members| && p == Peer(EntryName(members[i], name, UrlOf(joiner)), eps[i].host))
    || (p == Peer(name, joiner.host)
        && forall i :: 0 <= i < |members| ==> EntryName(members[i], name, UrlOf(joiner)) != name)
  }

  lemma EntryStart(entryName: string, url: string, name: string)
    requires CleanText(entryName) && CleanText(name)
    ensures name + "=" <= Entry(entryName, url) <==> entryName == name
  {
    hide FindChar, CleanText;
    var e := Entry(entryName, url);
    CleanHasNone(name);
    CleanHasNone(entryName);
    assert e == entryName + ['='] + url;
    FindCharIs(entryName, '=', url);
    if name + "=" <= e {
      assert e == name + ['='] + e[|name| + 1..];
      FindCharIs(name, '=', e[|name| + 1..]);
      assert e[..|name|] == name && e[..|entryName|] == entryName;
    }
  }

  /** Every part is read back, as one of the expected peers. */
  lemma PartParses(members: seq<Member>, eps: seq<Endpoint>, name: string, joiner: Endpoint, k: nat)
    requires Listed(members, eps) && CleanText(name) && CleanEndpoint(joiner) && k < |members|
    ensures var url := UrlOf(joiner);
            var part := Entries(members, name, url)[k];
            var n := EntryName(members[k], name, url);
            CleanText(n) && part == Entry(n, UrlOf(eps[k])) && ',' !in part
            && ParsePart(part) == Some(Peer(n, eps[k].host))
            && (name + "=" <= part <==> n == name)
  {
    hide CleanText, CleanEndpoint, ParsePart, UrlOf, Entry, CleanChar, Decimal;
    var url := UrlOf(joiner);
    var m := members[k];
    EntryNameIsClean(m, name, url);
    assert EntryUrl(m, url) == UrlOf(eps[k]);
    ParseEntry(EntryName(m, name, url), eps[k]);
    EntryStart(EntryName(m, name, url), UrlOf(eps[k]), name);
  }

  /** A set of parts is read back as exactly these peers. */
  ghost predicate ReadsAs(parts: seq<string>, members: seq<Member>, eps: seq<Endpoint>, name: string, joiner: Endpoint)
    requires |members| == |eps|
  {
    && (forall s :: s in parts ==>
          ',' !in s && ParsePart(s).Some? && Expected(members, eps, name, joiner, ParsePart(s).value))
    && (forall p :: Expected(members, eps, name, joiner, p) ==> exists s :: s in parts && ParsePart(s) == Some(p))
  }

  lemma PartsReadAs(members: seq<Member>, eps: seq<Endpoint>, name: string, joiner: Endpoint)
    requires Listed(members, eps) && CleanText(name) && CleanEndpoint(joiner)
    ensures ReadsAs(WithJoiner(Entries(members, name, UrlOf(joiner)), name, UrlOf(joiner)), members, eps, name, joiner)
  {
    hide CleanText, CleanEndpoint, ParsePart, UrlOf, Entry, EntryName, EntryUrl, Listed;
    var url := UrlOf(joiner);
    var parts := Entries(members, name, url);
    assert |members| == |eps| by { ListedLengths(members, eps); }
    forall k | 0 <= k < |members|
      ensures ',' !in parts[k] && ParsePart(parts[k]) == Some(Peer(EntryName(members[k], name, url), eps[k].host))
      ensures name + "=" <= parts[k] <==> EntryName(members[k], name, url) == name
    {
      PartParses(members, eps, name, joiner, k);
    }
    ParseEntry(name, joiner);
    var all := WithJoiner(parts, name, url);
    forall s | s in all
      ensures ',' !in s && ParsePart(s).Some? && Expected(members, eps, name, joiner, ParsePart(s).value)
    {
      if s in parts {
        var k :| 0 <= k < |parts| && parts[k] == s;
      }
    }
    forall p | Expected(members, eps, name, joiner, p)
      ensures exists s :: s in all && ParsePart(s) == Some(p)
    {
      if k :| 0 <= k < |members| && p == Peer(EntryName(members[k], name, url), eps[k].host) {
        assert parts[k] in all && ParsePart(parts[k]) == Some(p);
      } else {
        assert Entry(name, url) in all;
      }
    }
  }

  lemma ListedLengths(members: seq<Member>, eps: seq<Endpoint>)
    requires Listed(members, eps)
    ensures |members| == |eps|
  {
  }

  /** What the joiner prints, the healer reads: exactly the set of member names and hosts, the
      joiner's own entry included even while its member has no name, in byte order of the
      entries. */
  lemma {:induction false} MemberListRoundTrip(members: seq<Member>, eps: seq<Endpoint>, name: string, joiner: Endpoint)
    requires Listed(members, eps) && CleanText(name) && CleanEndpoint(joiner)
    ensures forall p :: p in Parse(InitialClusterOf(members, name, UrlOf(joiner)))
                   <==> Expected(members, eps, name, joiner, p)
  {
    hide CleanText, CleanEndpoint, ParsePart, UrlOf, Listed, Expected, Sort, Dedup, Parse, JoinWith, Entries, Less;
    ListedLengths(members, eps);
    var url := UrlOf(joiner);
    var all := WithJoiner(Entries(members, name, url), name, url);
    PartsReadAs(members, eps, name, joiner);
    var parts := Dedup(Sort(all));
    SortDedup(all);
    WithJoinerNotEmpty(Entries(members, name, url), name, url);
    assert all[0] in parts;
    var peers := ParseParts(parts);
    AllParse(parts);
    ParseJoined(parts, peers);
    forall p | p in peers ensures Expected(members, eps, name, joiner, p) {
      var i :| 0 <= i < |peers| && peers[i] == p;
      assert parts[i] in all;
    }
    forall p | Expected(members, eps, name, joiner, p) ensures p in peers {
      var s :| s in all && ParsePart(s) == Some(p);
      assert s in parts;
      var i :| 0 <= i < |parts| && parts[i] == s;
      assert peers[i] == p;
    }
  }

  /** Each member is read under its own name; while it has none, under the joiner's if it is at the
      joiner's address, and else under its number. */
  lemma {:induction false} MemberIsListed(members: seq<Member>, eps: seq<Endpoint>, name: string, joiner: Endpoint,
                                          i: nat)
    requires Listed(members, eps) && CleanText(name) && CleanEndpoint(joiner) && i < |members|
    ensures i < |eps|
    ensures var peers, m := Parse(InitialClusterOf(members, name, UrlOf(joiner))), members[i];
            && (m.name != "" ==> Peer(m.name, eps[i].host) in peers)
            && (m.name == "" && eps[i] == joiner ==> Peer(name, eps[i].host) in peers)
            && (m.name == "" && UrlOf(eps[i]) != UrlOf(joiner) ==> Peer(Decimal(m.id), eps[i].host) in peers)
  {
    hide CleanText, CleanEndpoint, UrlOf, Parse, InitialClusterOf;
    MemberListRoundTrip(members, eps, name, joiner);
    assert Expected(members, eps, name, joiner, Peer(EntryName(members[i], name, UrlOf(joiner)), eps[i].host));
  }

  /** Parts without an equals sign, without a name or without a host are dropped. */
  lemma {:induction false} UnreadableParts(name: string, e: Endpoint)
    requires CleanText(name) && CleanEndpoint(e)
    ensures ParsePart(name) == None && ParsePart(name + "=") == None && ParsePart("=" + UrlOf(e)) == None
  {
    hide CleanChar, FindChar, HostOf, Trim, HostPort;
    CleanHasNone(name);
    TrimKeeps(name);
    FindCharIs(name, '=', "");
    assert name + ['='] + "" == name + "=" && (name + "=")[0] == name[0];
    TrimKeeps(name + "=");
    NoHost();
    HostPortIsClean(e);
    CleanNotEmpty(HostPort(e));
    CleanHasNone(HostPort(e));
    var text := "=" + UrlOf(e);
    assert text[|text| - 1] == HostPort(e)[|HostPort(e)| - 1];
    TrimKeeps(text);
    FindCharIs("", '=', UrlOf(e));
    assert "" + ['='] + UrlOf(e) == text;
  }

  lemma NoHost()
    ensures HostOf("") == ""
  {
    TrimKeeps("");
  }

  lemma WithJoinerNotEmpty(parts: seq<string>, name: string, url: string)
    ensures WithJoiner(parts, name, url) != []
  {
  }

  lemma {:induction false} AllParse(parts: seq<string>)
    requires forall s :: s in parts ==> ParsePart(s).Some?
    ensures var peers := ParseParts(parts);
            |peers| == |parts| && forall i :: 0 <= i < |parts| ==> ParsePart(parts[i]) == Some(peers[i])
  {
    hide ParsePart;
    if parts != [] {
      assert parts == [parts[0]] + parts[1..];
      AllParse(parts[1..]);
    }
  }

  // ----- the healer

  predicate IsHealLeader(name: string, spec: string) {
    var n := Trim(name);
    EndsWith(n, "-cp-1") || EndsWith(n, "-cp1") || (Parse(spec) != [] && Parse(spec)[0].name == n)
  }

  /** The control-plane host names of the config generator. */
  function Node(cluster: string, i: nat): string { cluster + "-cp-" + Decimal(i) }

  predicate CleanCluster(cluster: string) { forall k :: 0 <= k < |cluster| ==> CleanChar(cluster[k]) }

  lemma NodeIsClean(cluster: string, i: nat)
    requires CleanCluster(cluster)
    ensures CleanText(Node(cluster, i)) && Trim(Node(cluster, i)) == Node(cluster, i)
  {
    hide TrimStart, TrimEnd, Trim;
    var n := Node(cluster, i);
    assert forall k :: 0 <= k < |n| ==> CleanChar(n[k]);
    CleanHasNone(n);
    TrimKeeps(n);
  }

  lemma NodesDiffer(cluster: string, i: nat, j: nat)
    requires Decimal(i) != Decimal(j)
    ensures Node(cluster, i) != Node(cluster, j)
  {
    assert Node(cluster, i)[|cluster| + 4..] == Decimal(i);
    assert Node(cluster, j)[|cluster| + 4..] == Decimal(j);
  }

  /** A node with one digit other than 1 has neither of the two healer suffixes. */
  lemma SuffixOfNode(cluster: string, i: nat)
    requires 1 <= i <= 9
    ensures EndsWith(Node(cluster, i), "-cp-1") || EndsWith(Node(cluster, i), "-cp1") <==> i == 1
  {
    var n := Node(cluster, i);
    assert n[|n| - 1] == Decimal(i)[0] == ('0' as int + i) as char;
    assert EndsWith(n, "-cp-1") ==> n[|n| - 1] == "-cp-1"[4];
    assert EndsWith(n, "-cp1") ==> n[|n| - 1] == "-cp1"[3];
    if i == 1 {
      assert n[|n| - 5..] == "-cp-1";
    }
  }

  /** Entries of nodes compare as what follows the cluster name. */
  lemma NodeEntryOrder(cluster: string, i: nat, j: nat, u: string, v: string)
    ensures Less(Entry(Node(cluster, i), u), Entry(Node(cluster, j), v))
       <==> Less(Decimal(i) + "=" + u, Decimal(j) + "=" + v)
  {
    hide Less, Decimal;
    var p := cluster + "-cp-";
    LessAfterPrefix(p, Decimal(i) + "=" + u, Decimal(j) + "=" + v);
    assert Entry(Node(cluster, i), u) == p + (Decimal(i) + "=" + u);
    assert Entry(Node(cluster, j), v) == p + (Decimal(j) + "=" + v);
  }

  lemma FirstNodeSortsFirst(cluster: string, j: nat, u: string, v: string)
    requires 2 <= j <= 9
    ensures Less(Entry(Node(cluster, 1), u), Entry(Node(cluster, j), v))
  {
    NodeEntryOrder(cluster, 1, j, u, v);
    assert (Decimal(1) + "=" + u)[0] == '1';
    assert (Decimal(j) + "=" + v)[0] == ('0' as int + j) as char;
  }

  /** The tenth node sorts before the first one: '0' is smaller than '='. */
  lemma TenthNodeSortsFirst(cluster: string, u: string, v: string)
    ensures Less(Entry(Node(cluster, 10), v), Entry(Node(cluster, 1), u))
  {
    NodeEntryOrder(cluster, 10, 1, v, u);
    var a, b := Decimal(10) + "=" + v, Decimal(1) + "=" + u;
    assert Decimal(1) == "1";
    assert Decimal(10) == Decimal(1) + "0" == "10";
    assert a[0] == '1' && a[1] == '0' && b[0] == '1' && b[1] == '=';
    assert a[1..][0] == '0' && b[1..][0] == '=';
  }

  /** The members are these nodes; `name` is the node that prints the list. */
  ghost predicate AreNodes(members: seq<Member>, js: seq<nat>, cluster: string, name: string, url: string) {
    |members| == |js|
    && forall k :: 0 <= k < |members| ==> EntryName(members[k], name, url) == Node(cluster, js[k])
  }

  /** The first peer of a printed list belongs to the part that is first in byte order. */
  lemma FirstOfList(members: seq<Member>, eps: seq<Endpoint>, name: string, joiner: Endpoint)
    returns (first: string)
    requires Listed(members, eps) && CleanText(name) && CleanEndpoint(joiner)
    ensures var url := UrlOf(joiner);
            var all := WithJoiner(Entries(members, name, url), name, url);
            var peers := Parse(InitialClusterOf(members, name, url));
            && first in all && (forall s :: s in all ==> s == first || Less(first, s))
            && peers != [] && ParsePart(first) == Some(peers[0])
  {
    hide CleanText, CleanEndpoint, ParsePart, UrlOf, Listed, Expected, Sort, Dedup, Parse, JoinWith, Entries, Less;
    ListedLengths(members, eps);
    var url := UrlOf(joiner);
    var all := WithJoiner(Entries(members, name, url), name, url);
    PartsReadAs(members, eps, name, joiner);
    var parts := Dedup(Sort(all));
    SortDedup(all);
    WithJoinerNotEmpty(Entries(members, name, url), name, url);
    assert all[0] in parts;
    AllParse(parts);
    ParseJoined(parts, ParseParts(parts));
    first := parts[0];
    forall s | s in all ensures s == first || Less(first, s) {
      assert s in parts;
      var i :| 0 <= i < |parts| && parts[i] == s;
    }
  }

  /** A part of a list of nodes is the entry of one of them, or of the printing node. */
  lemma PartOfNodes(members: seq<Member>, eps: seq<Endpoint>, js: seq<nat>, cluster: string,
                    i: nat, joiner: Endpoint, s: string) returns (j: nat, v: string)
    requires var name, url := Node(cluster, i), UrlOf(joiner);
             && Listed(members, eps) && CleanEndpoint(joiner) && CleanCluster(cluster)
             && AreNodes(members, js, cluster, name, url)
             && s in WithJoiner(Entries(members, name, url), name, url)
    ensures (j == i || j in js) && s == Entry(Node(cluster, j), v)
    ensures ParsePart(s).Some? && ParsePart(s).value.name == Node(cluster, j)
  {
    hide *;
    var name, url := Node(cluster, i), UrlOf(joiner);
    var parts := Entries(members, name, url);
    NodeIsClean(cluster, i);
    ListedLengths(members, eps);
    WithJoinerMembers(parts, name, url, s);
    if s in parts {
      var k :| 0 <= k < |parts| && parts[k] == s;
      PartParses(members, eps, name, joiner, k);
      AreNodesAt(members, js, cluster, name, url, k);
      j, v := js[k], UrlOf(eps[k]);
    } else {
      ParseEntry(name, joiner);
      j, v := i, url;
    }
  }

  lemma WithJoinerMembers(parts: seq<string>, name: string, url: string, s: string)
    requires s in WithJoiner(parts, name, url)
    ensures s in parts || s == Entry(name, url)
  {
  }

  lemma AreNodesAt(members: seq<Member>, js: seq<nat>, cluster: string, name: string, url: string, k: nat)
    requires AreNodes(members, js, cluster, name, url) && k < |members|
    ensures k < |js| && EntryName(members[k], name, url) == Node(cluster, js[k])
  {
  }

  lemma NodeIsListed(members: seq<Member>, js: seq<nat>, cluster: string, i: nat, joiner: Endpoint, j: nat)
    returns (u: string)
    requires var name, url := Node(cluster, i), UrlOf(joiner);
             AreNodes(members, js, cluster, name, url) && (j in js || j == i)
    ensures var name, url := Node(cluster, i), UrlOf(joiner);
            Entry(Node(cluster, j), u) in WithJoiner(Entries(members, name, url), name, url)
  {
    hide Node, Decimal, UrlOf, EntryName, EntryUrl, WithJoiner, Entry;
    var name, url := Node(cluster, i), UrlOf(joiner);
    var parts := Entries(members, name, url);
    if j in js {
      var k :| 0 <= k < |js| && js[k] == j;
      u := EntryUrl(members[k], url);
      WithJoinerKeeps(parts, name, url, parts[k]);
    } else {
      u := JoinerIsListed(parts, name, url);
    }
  }

  lemma WithJoinerKeeps(parts: seq<string>, name: string, url: string, s: string)
    requires s in parts
    ensures s in WithJoiner(parts, name, url)
  {
  }

  lemma JoinerIsListed(parts: seq<string>, name: string, url: string) returns (u: string)
    ensures Entry(name, u) in WithJoiner(parts, name, url)
  {
    if k :| 0 <= k < |parts| && name + "=" <= parts[k] {
      u := parts[k][|name| + 1..];
      assert parts[k] == Entry(name, u);
    } else {
      u := url;
    }
  }

  /** With 1 to 9 control planes, whichever of them a node has in its list besides the first
      one and itself, exactly the first node is the healer. */
  lemma {:induction false} UniqueHealer(members: seq<Member>, eps: seq<Endpoint>, js: seq<nat>, cluster: string, i: nat,
                                        joiner: Endpoint)
    requires CleanCluster(cluster) && 1 <= i <= 9 && CleanEndpoint(joiner) && Listed(members, eps)
    requires AreNodes(members, js, cluster, Node(cluster, i), UrlOf(joiner))
    requires (forall k :: 0 <= k < |js| ==> 1 <= js[k] <= 9) && (1 in js || i == 1)
    ensures IsHealLeader(Node(cluster, i), InitialClusterOf(members, Node(cluster, i), UrlOf(joiner))) <==> i == 1
  {
    hide CleanText, CleanEndpoint, ParsePart, UrlOf, Entry, Parse, Listed, AreNodes, Less, EndsWith, Trim, Node,
      WithJoiner, InitialClusterOf;
    NodeIsClean(cluster, i);
    SuffixOfNode(cluster, i);
    var first := FirstOfList(members, eps, Node(cluster, i), joiner);
    var j, v := PartOfNodes(members, eps, js, cluster, i, joiner, first);
    var u := NodeIsListed(members, js, cluster, i, joiner, 1);
    if j != 1 {
      FirstNodeSortsFirst(cluster, j, u, v);
      LessTrichotomy(Entry(Node(cluster, 1), u), first);
    }
    assert j == 1;
    if i != 1 {
      NodesDiffer(cluster, 1, i);
    }
  }

  // ----- the bound

  function NodeMembers(cluster: string, eps: seq<Endpoint>): (r: seq<Member>)
    ensures |r| == |eps|
    ensures forall k :: 0 <= k < |r| ==> r[k] == Member(k, Node(cluster, k + 1), [UrlOf(eps[k])])
  {
    seq(|eps|, k requires 0 <= k < |eps| => Member(k, Node(cluster, k + 1), [UrlOf(eps[k])]))
  }

  /** The list node `i` prints once every node is a named member. */
  function FullList(cluster: string, eps: seq<Endpoint>, i: nat): string
    requires 1 <= i <= |eps|
  {
    InitialClusterOf(NodeMembers(cluster, eps), Node(cluster, i), UrlOf(eps[i - 1]))
  }

  lemma FullListFacts(cluster: string, eps: seq<Endpoint>, i: nat) returns (js: seq<nat>)
    requires CleanCluster(cluster) && 1 <= i <= |eps| && forall k :: 0 <= k < |eps| ==> CleanEndpoint(eps[k])
    ensures var members := NodeMembers(cluster, eps);
            Listed(members, eps) && AreNodes(members, js, cluster, Node(cluster, i), UrlOf(eps[i - 1]))
    ensures |js| == |eps| && forall k :: 0 <= k < |js| ==> js[k] == k + 1
  {
    hide CleanText, CleanEndpoint, UrlOf, Node, CleanCluster;
    js := seq(|eps|, k => k + 1);
    var members := NodeMembers(cluster, eps);
    var name, url := Node(cluster, i), UrlOf(eps[i - 1]);
    forall k | 0 <= k < |members|
      ensures CleanText(members[k].name) && EntryName(members[k], name, url) == Node(cluster, js[k])
    {
      NodeIsClean(cluster, k + 1);
      CleanNotEmpty(members[k].name);
    }
  }

  /** With more than nine nodes another node is a healer too. */
  lemma {:induction false} SecondHealer(cluster: string, eps: seq<Endpoint>) returns (j: nat)
    requires CleanCluster(cluster) && |eps| >= 10 && forall k :: 0 <= k < |eps| ==> CleanEndpoint(eps[k])
    ensures 2 <= j <= |eps| && IsHealLeader(Node(cluster, j), FullList(cluster, eps, j))
  {
    hide CleanText, CleanEndpoint, ParsePart, UrlOf, Entry, Parse, Listed, AreNodes, Less, Trim, Node;
    var members := NodeMembers(cluster, eps);
    var js := FullListFacts(cluster, eps, 1);
    var name, url := Node(cluster, 1), UrlOf(eps[0]);
    NodeIsClean(cluster, 1);
    var first := FirstOfList(members, eps, name, eps[0]);
    var v: string;
    j, v := PartOfNodes(members, eps, js, cluster, 1, eps[0], first);
    assert js[9] == 10;
    var u := NodeIsListed(members, js, cluster, 1, eps[0], 10);
    if j == 1 {
      TenthNodeSortsFirst(cluster, v, u);
      LessTrichotomy(Entry(Node(cluster, 10), u), first);
    }
    assert 2 <= j <= |eps|;
    SameFullList(cluster, eps, j);
    NodeIsClean(cluster, j);
  }

  /** Once every node is a named member, all nodes print the same list. */
  lemma SameFullList(cluster: string, eps: seq<Endpoint>, i: nat)
    requires CleanCluster(cluster) && 1 <= i <= |eps|
    ensures FullList(cluster, eps, i) == FullList(cluster, eps, 1)
  {
    hide UrlOf, Sort, Dedup, JoinWith;
    ListOfNamed(cluster, eps, i);
    ListOfNamed(cluster, eps, 1);
    assert Entries(NodeMembers(cluster, eps), Node(cluster, i), UrlOf(eps[i - 1]))
        == Entries(NodeMembers(cluster, eps), Node(cluster, 1), UrlOf(eps[0]));
  }

  lemma ListOfNamed(cluster: string, eps: seq<Endpoint>, i: nat)
    requires CleanCluster(cluster) && 1 <= i <= |eps|
    ensures var name, url := Node(cluster, i), UrlOf(eps[i - 1]);
            var parts := Entries(NodeMembers(cluster, eps), name, url);
            WithJoiner(parts, name, url) == parts
            && forall k :: 0 <= k < |parts| ==> parts[k] == Entry(Node(cluster, k + 1), UrlOf(eps[k]))
  {
    hide UrlOf;
    var name, url := Node(cluster, i), UrlOf(eps[i - 1]);
    var parts := Entries(NodeMembers(cluster, eps), name, url);
    assert parts[i - 1] == Entry(name, url);
    assert name + "=" <= parts[i - 1];
  }

  /** Exactly one healer in a complete cluster, if and only if it has at most nine nodes. */
  lemma {:induction false} OneHealerUpToNine(cluster: string, eps: seq<Endpoint>)
    requires CleanCluster(cluster) && eps != [] && forall k :: 0 <= k < |eps| ==> CleanEndpoint(eps[k])
    ensures (forall i :: 1 <= i <= |eps| ==> (IsHealLeader(Node(cluster, i), FullList(cluster, eps, i)) <==> i == 1))
       <==> |eps| <= 9
  {
    hide IsHealLeader, CleanEndpoint, CleanCluster, Node;
    if |eps| <= 9 {
      forall i | 1 <= i <= |eps|
        ensures IsHealLeader(Node(cluster, i), FullList(cluster, eps, i)) <==> i == 1
      {
        var js := FullListFacts(cluster, eps, i);
        assert js[0] == 1;
        UniqueHealer(NodeMembers(cluster, eps), eps, js, cluster, i, eps[i - 1]);
      }
    } else {
      var j := SecondHealer(cluster, eps);
    }
  }

  // ----- how many members the list has

  ghost predicate Distinct(s: seq<string>) { forall i, j :: 0 <= i < j < |s| ==> s[i] != s[j] }

  lemma {:induction false} LessIsNotEqual(a: string)
    ensures !Less(a, a)
  {
    if a != "" {
      LessIsNotEqual(a[1..]);
    }
  }

  function Elements(s: seq<string>): (r: set<string>)
    ensures forall x :: x in r <==> x in s
  {
    if s == [] then {} else {s[0]} + Elements(s[1..])
  }

  lemma {:induction false} DistinctSize(s: seq<string>)
    requires Distinct(s)
    ensures |Elements(s)| == |s|
  {
    if s != [] {
      DistinctTail(s);
      DistinctSize(s[1..]);
    }
  }

  lemma DistinctTail(s: seq<string>)
    requires Distinct(s) && s != []
    ensures Distinct(s[1..]) && s[0] !in s[1..]
  {
    assert forall j :: 0 <= j < |s[1..]| ==> s[1..][j] == s[j + 1];
  }

  lemma SortedSize(parts: seq<string>)
    requires Distinct(parts)
    ensures |Dedup(Sort(parts))| == |parts|
  {
    hide Dedup, Sort, Less;
    var sorted := Dedup(Sort(parts));
    SortDedup(parts);
    forall i, j | 0 <= i < j < |sorted| ensures sorted[i] != sorted[j] {
      LessIsNotEqual(sorted[i]);
    }
    DistinctSize(parts);
    DistinctSize(sorted);
    assert Elements(parts) == Elements(sorted);
  }

  /** A complete list of one to nine nodes is read as as many members, with the address of each. */
  lemma {:induction false} FullListIsRead(cluster: string, eps: seq<Endpoint>, i: nat)
    requires CleanCluster(cluster) && 1 <= i <= |eps| <= 9 && forall k :: 0 <= k < |eps| ==> CleanEndpoint(eps[k])
    ensures |Parse(FullList(cluster, eps, i))| == |eps|
    ensures Peer(Node(cluster, i), eps[i - 1].host) in Parse(FullList(cluster, eps, i))
  {
    hide *;
    var members, name, url := NodeMembers(cluster, eps), Node(cluster, i), UrlOf(eps[i - 1]);
    var js := FullListFacts(cluster, eps, i);
    var parts := Entries(members, name, url);
    ListOfNamed(cluster, eps, i);
    forall k | 0 <= k < |parts| ensures ParsePart(parts[k]) == Some(Peer(Node(cluster, k + 1), eps[k].host)) {
      NodeIsClean(cluster, k + 1);
      ParseEntry(Node(cluster, k + 1), eps[k]);
    }
    forall k | 0 <= k < |parts| ensures ',' !in parts[k] {
      NodeIsClean(cluster, k + 1);
      ParseEntry(Node(cluster, k + 1), eps[k]);
    }
    PartsAreDistinct(cluster, eps, parts);
    SortedSize(parts);
    SortDedup(parts);
    var sorted := Dedup(Sort(parts));
    assert parts[i - 1] in sorted;
    AllParse(sorted);
    PartsAre(sorted, ParseParts(sorted));
    ParseJoined(sorted, ParseParts(sorted));
    FullListIs(cluster, eps, i);
    var k :| 0 <= k < |sorted| && sorted[k] == parts[i - 1];
    assert ParseParts(sorted)[k] == Peer(Node(cluster, i), eps[i - 1].host);
  }

  lemma PartsAreDistinct(cluster: string, eps: seq<Endpoint>, parts: seq<string>)
    requires |parts| == |eps| <= 9
    requires forall k :: 0 <= k < |parts| ==> ParsePart(parts[k]) == Some(Peer(Node(cluster, k + 1), eps[k].host))
    ensures Distinct(parts)
  {
    hide ParsePart, Node;
    forall j, k | 0 <= j < k < |parts| ensures parts[j] != parts[k] {
      assert Decimal(j + 1)[0] != Decimal(k + 1)[0];
      NodesDiffer(cluster, j + 1, k + 1);
    }
  }

  lemma PartsAre(parts: seq<string>, peers: seq<Peer>)
    requires |peers| == |parts| && forall i :: 0 <= i < |parts| ==> ParsePart(parts[i]) == Some(peers[i])
    requires forall s :: s in parts ==> ',' !in s
    ensures PartsOf(parts, peers)
  {
    hide ParsePart;
  }

  lemma FullListIs(cluster: string, eps: seq<Endpoint>, i: nat)
    requires CleanCluster(cluster) && 1 <= i <= |eps|
    ensures var name, url := Node(cluster, i), UrlOf(eps[i - 1]);
            FullList(cluster, eps, i)
            == JoinWith(Dedup(Sort(WithJoiner(Entries(NodeMembers(cluster, eps), name, url), name, url))), ',')
  {
    hide JoinWith, Dedup, Sort, WithJoiner, Entries, NodeMembers, Node, UrlOf;
  }
}
