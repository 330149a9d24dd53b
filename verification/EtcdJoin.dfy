/** Control-plane joins and etcd healing as a step protocol (`crates/pertisk-bootstrap/src/join.rs`,
    `crates/pertisk-bootstrap/src/etcd_backup.rs`). */
module EtcdJoin {
  import opened Text

  // A node is a number that stands for its address; `host` gives its host name. Every call to the
  // etcd server is one step, and the steps of all nodes interleave freely. A call of a join may
  // fail, or lose its answer after the server acted.

  /** The host name of each node. */
  type Hosts = nat -> nat

  // ----- the etcd server

  datatype Member = Member(id: nat, name: Option<nat>, url: nat, learner: bool)

  function Voters(ms: seq<Member>): nat {
    if ms == [] then 0 else (if ms[0].learner then 0 else 1) + Voters(ms[1..])
  }

  function VotersUp(ms: seq<Member>, up: set<nat>): nat {
    if ms == [] then 0
    else (if !ms[0].learner && ms[0].url in up then 1 else 0) + VotersUp(ms[1..], up)
  }

  /** The server has a leader, and answers, iff a majority of its voters is up. */
  predicate HasLeader(ms: seq<Member>, up: set<nat>) { 2 * VotersUp(ms, up) > Voters(ms) }

  predicate HasUrl(ms: seq<Member>, url: nat) { exists i :: 0 <= i < |ms| && ms[i].url == url }

  predicate HasLearner(ms: seq<Member>) { exists i :: 0 <= i < |ms| && ms[i].learner }

  predicate IsVoter(ms: seq<Member>, url: nat) {
    exists i :: 0 <= i < |ms| && ms[i].url == url && !ms[i].learner
  }

  function FirstWithUrl(ms: seq<Member>, url: nat): (r: Option<nat>)
    ensures r.Some? ==> r.value < |ms| && ms[r.value].url == url
    ensures r.None? <==> !HasUrl(ms, url)
  {
    if ms == [] then None
    else if ms[0].url == url then Some(0)
    else
      match FirstWithUrl(ms[1..], url)
      case None =>
        assert forall i :: 0 < i < |ms| ==> ms[i] == ms[1..][i - 1];
        None
      case Some(i) => Some(i + 1)
  }

  function FirstNamed(ms: seq<Member>, name: nat): (r: Option<nat>)
    ensures r.Some? ==> r.value < |ms| && ms[r.value].name == Some(name)
  {
    if ms == [] then None
    else if ms[0].name == Some(name) then Some(0)
    else
      match FirstNamed(ms[1..], name)
      case None => None
      case Some(i) => Some(i + 1)
  }

  /** A second learner and a known peer URL are refused. */
  predicate AddAllowed(s: State, url: nat) {
    HasLeader(s.members, s.up) && !HasLearner(s.members) && !HasUrl(s.members, url)
  }

  function WithLearner(s: State, url: nat): State {
    s.(members := s.members + [Member(s.nextId, None, url, true)], nextId := s.nextId + 1)
  }

  /** The index of the learner that a promotion of this id turns into a voter. A learner that is
      not up is not in sync; one that is up may still be behind. */
  predicate PromoteAllowed(s: State, id: nat, i: nat) {
    && HasLeader(s.members, s.up) && i < |s.members|
    && s.members[i].id == id && s.members[i].learner && s.members[i].url in s.up
  }

  function Promoted(s: State, i: nat): State
    requires i < |s.members|
  {
    s.(members := s.members[i := s.members[i].(learner := false)])
  }

  // ----- the nodes

  /** An entry of the initial-cluster list in a node's manifest; a member that has not started is
      listed under its number, which is no host name. */
  datatype Entry = Entry(name: Option<nat>, url: nat)

  /** `initial_cluster_from_members`, up to order. */
  function ListFor(ms: seq<Member>, n: nat, name: nat): (r: seq<Entry>)
    ensures |ms| <= |r| <= |ms| + 1
    ensures |r| > |ms| ==> r[|ms|] == Entry(Some(name), n)
    ensures exists i :: 0 <= i < |r| && r[i].name == Some(name)
    ensures |r| > |ms| ==> forall i :: 0 <= i < |ms| ==> r[i].name != Some(name)
    ensures forall i :: 0 <= i < |ms| ==>
              r[i] == Entry(if ms[i].name.None? && ms[i].url == n then Some(name) else ms[i].name, ms[i].url)
  {
    var entries := seq(|ms|, i requires 0 <= i < |ms| =>
      Entry(if ms[i].name.None? && ms[i].url == n then Some(name) else ms[i].name, ms[i].url));
    if exists i :: 0 <= i < |entries| && entries[i].name == Some(name) then entries
    else entries + [Entry(Some(name), n)]
  }

  /** Where a fresh join stands. */
  datatype Phase =
    | Attempt(k: nat)                                     // top of the add loop
    | Help(k: nat, refused: bool)                         // about to list the learners to promote
    | Helping(k: nat, refused: bool, todo: seq<nat>)      // promoting them
    | Add(k: nat)                                         // about to add itself
    | Added                                               // added; about to list
    | Refused(k: nat, duplicate: bool, learner: bool)     // what the error text mentions
    | Configured(list: seq<Entry>)                        // writing kubeconfigs
    | Written                                             // manifest on disk
    | Waiting                                             // for the local etcd
    | Promote                                             // top of the promote loop
    | Listed(seen: seq<Member>)                           // members as the promote call read them
    | Joined
    | Failed

  const ATTEMPTS: nat := 90

  function NextAttempt(k: nat): Phase { if k < ATTEMPTS then Attempt(k + 1) else Failed }

  datatype State = State(
    members: seq<Member>,
    nextId: nat,
    up: set<nat>,                        // etcd processes that run
    manifests: map<nat, seq<Entry>>,     // etcd manifests on disk
    marked: set<nat>,                    // nodes with the bootstrap marker
    joins: map<nat, Phase>,
    suspects: set<nat>)                  // heals that found no leader

  datatype Action =
    | Begin(n: nat)
    | Abort(n: nat)
    | ConnectFails(n: nat)
    | ReadMembers(n: nat)
    | ReadFails(n: nat)
    | HelpOne(n: nat, i: Option<nat>)
    | AddSelf(n: nat, applied: bool, answered: bool, duplicate: bool, learner: bool)
    | Write(n: nat)
    | Mark(n: nat)
    | Start(n: nat)
    | LocalUp(n: nat)
    | PromoteSelf(n: nat, i: Option<nat>, answered: bool)
    | HealTry(n: nat)
    | HealForce(n: nat)

  predicate At(s: State, n: nat) { n in s.joins }

  function LearnerIds(ms: seq<Member>): seq<nat> {
    if ms == [] then [] else (if ms[0].learner then [ms[0].id] else []) + LearnerIds(ms[1..])
  }

  /** What a successful `member_list` leads to. */
  function AfterRead(p: Phase, ms: seq<Member>, n: nat, name: nat): Phase {
    match p
    case Attempt(k) =>
      if HasUrl(ms, n) then Configured(ListFor(ms, n, name))
      else if HasLearner(ms) then Help(k, false)
      else Add(k)
    case Help(k, refused) => Helping(k, refused, LearnerIds(ms))
    case Added => Configured(ListFor(ms, n, name))
    case Refused(_, _, _) => Configured(ListFor(ms, n, name))
    case Promote => Listed(ms)
    case _ => p
  }

  predicate Reads(p: Phase) {
    p.Attempt? || p.Help? || p.Added? || (p.Refused? && p.duplicate) || p.Promote?
  }

  /** What a failed call leads to: a list in the first place is skipped, the others end or repeat. */
  function AfterFailure(p: Phase): Phase {
    match p
    case Attempt(k) => Add(k)
    case Help(k, refused) => if refused then NextAttempt(k) else Add(k)
    case Added => Failed
    case Refused(k, _, learner) => if learner then Help(k, true) else NextAttempt(k)
    case _ => p
  }

  // ----- healing

  /** An etcd that runs and may list the members, which a learner may not. */
  predicate Answers(ms: seq<Member>, up: set<nat>, n: nat) { n in up && IsVoter(ms, n) }

  /** A node finds a leader through its own etcd, or through a listed peer that is neither at its
      address nor of its name. */
  predicate Contacts(s: State, name: nat, n: nat)
    requires n in s.manifests
  {
    var list := s.manifests[n];
    Answers(s.members, s.up, n)
    || exists i :: 0 <= i < |list| && list[i].url != n && list[i].name != Some(name)
                   && Answers(s.members, s.up, list[i].url)
  }

  /** `sync_this_member_peer_url`: what it does to the members, or `None` if the update is refused. */
  function SyncUrl(ms: seq<Member>, name: nat, n: nat): Option<seq<Member>> {
    match FirstNamed(ms, name)
    case None => Some(ms)
    case Some(i) =>
      if ms[i].url == n then Some(ms)
      else if HasUrl(ms, n) then None
      else Some(ms[i := ms[i].(url := n)])
  }

  function HealTried(s: State, name: nat, n: nat): State
    requires n in s.manifests
  {
    if HasLeader(s.members, s.up) && Contacts(s, name, n) then
      match SyncUrl(s.members, name, n)
      case Some(ms) => s.(members := ms, suspects := s.suspects - {n})
      case None => s.(suspects := s.suspects + {n})
    else s.(suspects := s.suspects + {n})
  }

  /** `should_force_new_cluster` after a heal that never found a leader; that the node is the
      healer is left to the environment. */
  predicate ForceAllowed(s: State, n: nat) {
    && n in s.marked && n in s.manifests && n in s.suspects && n in s.up
    && var list := s.manifests[n];
       |list| >= 3 || !exists i :: 0 <= i < |list| && list[i].url == n
  }

  // ----- steps

  predicate Enabled(s: State, a: Action) {
    match a
    case Begin(n) => n !in s.marked && (n !in s.joins || s.joins[n].Failed?)
    case Abort(n) => At(s, n) && !s.joins[n].Joined?
    case ConnectFails(n) => At(s, n) && s.joins[n].Attempt?
    case ReadMembers(n) => At(s, n) && Reads(s.joins[n]) && HasLeader(s.members, s.up)
    case ReadFails(n) => At(s, n) && (Reads(s.joins[n]) || s.joins[n].Refused?)
    case HelpOne(n, i) =>
      && At(s, n) && s.joins[n].Helping?
      && (i.Some? ==> s.joins[n].todo != [] && PromoteAllowed(s, s.joins[n].todo[0], i.value))
    case AddSelf(n, applied, answered, _, _) =>
      At(s, n) && s.joins[n].Add? && (applied ==> AddAllowed(s, n)) && (answered ==> applied)
    case Write(n) => At(s, n) && s.joins[n].Configured?
    case Mark(n) => At(s, n) && s.joins[n].Written?
    case Start(n) => n in s.manifests && HasUrl(s.members, n)
    case LocalUp(n) => At(s, n) && s.joins[n].Waiting? && n in s.up
    case PromoteSelf(n, i, answered) =>
      && At(s, n) && s.joins[n].Listed?
      && var own := FirstWithUrl(s.joins[n].seen, n);
         && (answered ==> i.Some?)
         && (i.Some? ==> own.Some? && s.joins[n].seen[own.value].learner
                         && PromoteAllowed(s, s.joins[n].seen[own.value].id, i.value))
    case HealTry(n) => n in s.marked && n in s.manifests
    case HealForce(n) => ForceAllowed(s, n)
  }

  function To(s: State, n: nat, p: Phase): State { s.(joins := s.joins[n := p]) }

  function Step(host: Hosts, s: State, a: Action): State
    requires Enabled(s, a)
  {
    match a
    case Begin(n) => To(s, n, Attempt(1))
    case Abort(n) => To(s, n, Failed)
    case ConnectFails(n) => To(s, n, NextAttempt(s.joins[n].k))
    case ReadMembers(n) => To(s, n, AfterRead(s.joins[n], s.members, n, host(n)))
    case ReadFails(n) => To(s, n, AfterFailure(s.joins[n]))
    case HelpOne(n, i) =>
      var p := s.joins[n];
      if p.todo == [] then To(s, n, if p.refused then NextAttempt(p.k) else Add(p.k))
      else To(if i.Some? then Promoted(s, i.value) else s, n, p.(todo := p.todo[1..]))
    case AddSelf(n, applied, answered, duplicate, learner) =>
      To(if applied then WithLearner(s, n) else s, n,
         if answered then Added else Refused(s.joins[n].k, duplicate, learner))
    case Write(n) => To(s.(manifests := s.manifests[n := s.joins[n].list]), n, Written)
    case Mark(n) => To(s.(marked := s.marked + {n}), n, Waiting)
    case Start(n) =>
      var i := FirstWithUrl(s.members, n).value;
      s.(up := s.up + {n}, members := s.members[i := s.members[i].(name := Some(host(n)))])
    case LocalUp(n) => To(s, n, Promote)
    case PromoteSelf(n, i, answered) =>
      var own := FirstWithUrl(s.joins[n].seen, n);
      if own.Some? && !s.joins[n].seen[own.value].learner then To(s, n, Joined)
      else To(if i.Some? then Promoted(s, i.value) else s, n, if answered then Joined else Promote)
    case HealTry(n) => HealTried(s, host(n), n)
    case HealForce(n) =>
      s.(members := [Member(s.nextId, Some(host(n)), n, false)], nextId := s.nextId + 1)
  }

  predicate CanRun(host: Hosts, s: State, run: seq<Action>)
    decreases |run|
  {
    run == [] || (Enabled(s, run[0]) && CanRun(host, Step(host, s, run[0]), run[1..]))
  }

  function After(host: Hosts, s: State, run: seq<Action>): State
    requires CanRun(host, s, run)
    decreases |run|
  {
    if run == [] then s else After(host, Step(host, s, run[0]), run[1..])
  }

  // ----- what holds

  ghost predicate Injective(host: Hosts) { forall a: nat, b: nat :: host(a) == host(b) ==> a == b }

  predicate DistinctMembers(ms: seq<Member>) {
    forall i, j :: 0 <= i < j < |ms| ==> ms[i].url != ms[j].url && ms[i].id != ms[j].id
  }

  predicate OneLearner(ms: seq<Member>) {
    forall i, j :: 0 <= i < j < |ms| ==> !ms[i].learner || !ms[j].learner
  }

  /** A member has the name of the node at its address, and has it once its etcd runs. */
  predicate NamesFit(host: Hosts, ms: seq<Member>, up: set<nat>) {
    forall i :: 0 <= i < |ms| ==>
      && (ms[i].name.Some? ==> ms[i].name.value == host(ms[i].url))
      && (ms[i].url in up ==> ms[i].name.Some?)
  }

  predicate MembersOk(host: Hosts, s: State) {
    && DistinctMembers(s.members) && OneLearner(s.members) && NamesFit(host, s.members, s.up)
    && HasLeader(s.members, s.up)
    && (forall i :: 0 <= i < |s.members| ==> s.members[i].id < s.nextId)
    && (forall n :: n in s.up ==> HasUrl(s.members, n))
  }

  /** The node's own etcd answers, or its list leads to another one that does. */
  predicate Reaches(host: Hosts, s: State, n: nat, list: seq<Entry>) {
    Answers(s.members, s.up, n)
    || exists i :: 0 <= i < |list| && list[i].url != n && list[i].name == Some(host(list[i].url))
                   && Answers(s.members, s.up, list[i].url)
  }

  /** A member that some earlier list showed is still there, and a voter is still a voter. */
  predicate StillThere(m: Member, ms: seq<Member>) {
    exists i :: 0 <= i < |ms| && ms[i].id == m.id && ms[i].url == m.url && (!m.learner ==> !ms[i].learner)
  }

  predicate PhaseOk(host: Hosts, s: State, n: nat, p: Phase) {
    match p
    case Attempt(k) => 1 <= k <= ATTEMPTS
    case Help(k, _) => 1 <= k <= ATTEMPTS
    case Helping(k, _, _) => 1 <= k <= ATTEMPTS
    case Add(k) => 1 <= k <= ATTEMPTS
    case Refused(k, _, _) => 1 <= k <= ATTEMPTS
    case Configured(list) => Reaches(host, s, n, list)
    case Written => n in s.manifests
    case Listed(seen) => forall i :: 0 <= i < |seen| ==> StillThere(seen[i], s.members)
    case Joined => IsVoter(s.members, n)
    case _ => true
  }

  predicate Inv(host: Hosts, s: State) {
    && MembersOk(host, s)
    && s.suspects == {}
    && (forall n :: n in s.manifests ==> Reaches(host, s, n, s.manifests[n]))
    && (forall n :: n in s.joins ==> PhaseOk(host, s, n, s.joins[n]))
  }

  /** Where runs start: any cluster with a majority of its voters up, without a learner, in which
      no join has begun and every node that heals runs its etcd. One healthy voter is the least. */
  predicate Healthy(host: Hosts, s: State) {
    && MembersOk(host, s) && !HasLearner(s.members)
    && s.joins == map[] && s.suspects == {}
    && s.manifests.Keys == s.marked && s.marked <= s.up
  }

  // ----- counting voters

  function Weight(m: Member): nat { if m.learner then 0 else 1 }

  function WeightUp(m: Member, up: set<nat>): nat { if !m.learner && m.url in up then 1 else 0 }

  lemma {:induction false} CountsOfUpdate(ms: seq<Member>, up: set<nat>, i: nat, m: Member)
    requires i < |ms|
    ensures Voters(ms[i := m]) == Voters(ms) - Weight(ms[i]) + Weight(m)
    ensures VotersUp(ms[i := m], up) == VotersUp(ms, up) - WeightUp(ms[i], up) + WeightUp(m, up)
  {
    if i > 0 {
      assert ms[i := m][1..] == ms[1..][i - 1 := m];
      CountsOfUpdate(ms[1..], up, i - 1, m);
    } else {
      assert ms[i := m][1..] == ms[1..];
    }
  }

  lemma {:induction false} CountsOfLearner(ms: seq<Member>, up: set<nat>, m: Member)
    requires m.learner
    ensures Voters(ms + [m]) == Voters(ms) && VotersUp(ms + [m], up) == VotersUp(ms, up)
  {
    if ms != [] {
      assert (ms + [m])[1..] == ms[1..] + [m];
      CountsOfLearner(ms[1..], up, m);
    }
  }

  lemma {:induction false} MoreUp(ms: seq<Member>, up: set<nat>, more: set<nat>)
    requires up <= more
    ensures VotersUp(ms, up) <= VotersUp(ms, more) <= Voters(ms)
  {
    if ms != [] {
      MoreUp(ms[1..], up, more);
    }
  }

  /** A leader needs a voter that is up. */
  lemma {:induction false} SomeVoterUp(ms: seq<Member>, up: set<nat>) returns (i: nat)
    requires VotersUp(ms, up) > 0
    ensures i < |ms| && !ms[i].learner && ms[i].url in up
  {
    if !ms[0].learner && ms[0].url in up {
      i := 0;
    } else {
      i := SomeVoterUp(ms[1..], up);
      i := i + 1;
    }
  }

  // ----- the steps keep it

  /** The members only grow, get names and get promoted, and etcds only start. */
  predicate Grows(ms: seq<Member>, up: set<nat>, next: seq<Member>, upNext: set<nat>) {
    && up <= upNext && |ms| <= |next|
    && forall i :: 0 <= i < |ms| ==>
         next[i].id == ms[i].id && next[i].url == ms[i].url && (!ms[i].learner ==> !next[i].learner)
  }

  lemma PhaseSurvives(host: Hosts, s: State, t: State, n: nat, p: Phase)
    requires PhaseOk(host, s, n, p)
    requires Grows(s.members, s.up, t.members, t.up)
    requires n in s.manifests ==> n in t.manifests
    ensures PhaseOk(host, t, n, p)
  {
    match p
    case Configured(list) => ReachesSurvives(host, s, t, n, list);
    case Listed(seen) =>
      forall i | 0 <= i < |seen| ensures StillThere(seen[i], t.members) {
        StillThereSurvives(seen[i], s.members, s.up, t.members, t.up);
      }
    case Joined =>
      var i :| 0 <= i < |s.members| && s.members[i].url == n && !s.members[i].learner;
      assert t.members[i].url == n;
    case _ =>
  }

  lemma StillThereSurvives(m: Member, ms: seq<Member>, up: set<nat>, next: seq<Member>, upNext: set<nat>)
    requires StillThere(m, ms) && Grows(ms, up, next, upNext)
    ensures StillThere(m, next)
  {
    var j :| 0 <= j < |ms| && ms[j].id == m.id && ms[j].url == m.url && (!m.learner ==> !ms[j].learner);
    assert next[j].id == m.id;
  }

  lemma AnswersSurvives(ms: seq<Member>, up: set<nat>, next: seq<Member>, upNext: set<nat>, n: nat)
    requires Answers(ms, up, n) && Grows(ms, up, next, upNext)
    ensures Answers(next, upNext, n)
  {
    var i :| 0 <= i < |ms| && ms[i].url == n && !ms[i].learner;
    assert next[i].url == n;
  }

  lemma ReachesSurvives(host: Hosts, s: State, t: State, n: nat, list: seq<Entry>)
    requires Reaches(host, s, n, list) && Grows(s.members, s.up, t.members, t.up)
    ensures Reaches(host, t, n, list)
  {
    hide Answers, Grows;
    if Answers(s.members, s.up, n) {
      AnswersSurvives(s.members, s.up, t.members, t.up, n);
    } else {
      var i :| 0 <= i < |list| && list[i].url != n && list[i].name == Some(host(list[i].url))
               && Answers(s.members, s.up, list[i].url);
      AnswersSurvives(s.members, s.up, t.members, t.up, list[i].url);
    }
  }

  /** A list that was just read leads to an etcd that answers. */
  lemma FreshListReaches(host: Hosts, s: State, n: nat)
    requires MembersOk(host, s)
    ensures Reaches(host, s, n, ListFor(s.members, n, host(n)))
  {
    var i := SomeVoterUp(s.members, s.up);
    assert Answers(s.members, s.up, s.members[i].url);
    assert ListFor(s.members, n, host(n))[i].url == s.members[i].url;
  }

  lemma {:induction false} PromotionKeeps(host: Hosts, s: State, id: nat, i: nat)
    requires MembersOk(host, s) && PromoteAllowed(s, id, i)
    ensures MembersOk(host, Promoted(s, i))
    ensures Grows(s.members, s.up, Promoted(s, i).members, s.up)
    ensures IsVoter(Promoted(s, i).members, s.members[i].url)
  {
    hide Voters, VotersUp;
    var ms := Promoted(s, i).members;
    CountsOfUpdate(s.members, s.up, i, s.members[i].(learner := false));
    assert ms[i].url == s.members[i].url;
    forall m | m in s.up ensures HasUrl(ms, m) {
      HasUrlSurvives(s.members, s.up, ms, s.up, m);
    }
  }

  lemma {:induction false} AdditionKeeps(host: Hosts, s: State, n: nat)
    requires MembersOk(host, s) && AddAllowed(s, n)
    ensures MembersOk(host, WithLearner(s, n))
    ensures Grows(s.members, s.up, WithLearner(s, n).members, s.up)
  {
    CountsOfLearner(s.members, s.up, Member(s.nextId, None, n, true));
    forall m | m in s.up ensures HasUrl(WithLearner(s, n).members, m) {
      HasUrlSurvives(s.members, s.up, WithLearner(s, n).members, s.up, m);
    }
  }

  lemma HasUrlSurvives(ms: seq<Member>, up: set<nat>, next: seq<Member>, upNext: set<nat>, url: nat)
    requires Grows(ms, up, next, upNext) && HasUrl(ms, url)
    ensures HasUrl(next, url)
  {
    var i :| 0 <= i < |ms| && ms[i].url == url;
    assert next[i].url == url;
  }

  lemma StartKeeps(host: Hosts, s: State, n: nat)
    requires MembersOk(host, s) && Enabled(s, Start(n))
    ensures MembersOk(host, Step(host, s, Start(n)))
    ensures Grows(s.members, s.up, Step(host, s, Start(n)).members, s.up + {n})
  {
    hide Voters, VotersUp, FirstWithUrl, DistinctMembers, OneLearner, NamesFit, HasUrl, Grows;
    var t := Step(host, s, Start(n));
    var i := FirstWithUrl(s.members, n).value;
    NamedFits(host, s.members, s.up, i);
    CountsOfUpdate(s.members, s.up, i, s.members[i].(name := Some(host(n))));
    MoreUp(t.members, s.up, t.up);
    forall m | m in t.up ensures HasUrl(t.members, m) {
      if m == n {
        UrlIsThere(t.members, i);
      } else {
        HasUrlSurvives(s.members, s.up, t.members, t.up, m);
      }
    }
  }

  lemma UrlIsThere(ms: seq<Member>, i: nat)
    requires i < |ms|
    ensures HasUrl(ms, ms[i].url)
  {
  }

  /** Naming a member after the node at its address, whose etcd now runs. */
  lemma NamedFits(host: Hosts, ms: seq<Member>, up: set<nat>, i: nat)
    requires i < |ms| && DistinctMembers(ms) && OneLearner(ms) && NamesFit(host, ms, up)
    ensures var named := ms[i := ms[i].(name := Some(host(ms[i].url)))];
            && DistinctMembers(named) && OneLearner(named) && NamesFit(host, named, up + {ms[i].url})
            && Grows(ms, up, named, up + {ms[i].url})
  {
  }

  /** A step of one node leaves what the others rely on: `u` is the state with its effects on the
      server, `p` the phase it leads to. */
  lemma Carries(host: Hosts, s: State, u: State, n: nat, p: Phase)
    requires Inv(host, s) && MembersOk(host, u) && Grows(s.members, s.up, u.members, u.up)
    requires u.suspects == {} && u.manifests == s.manifests && u.joins == s.joins
    requires PhaseOk(host, u, n, p)
    ensures Inv(host, To(u, n, p))
  {
    hide MembersOk, Grows, PhaseOk, Reaches;
    var t := To(u, n, p);
    GrowsUp(s.members, s.up, u.members, u.up);
    forall m | m in t.joins ensures PhaseOk(host, t, m, t.joins[m]) {
      if m != n {
        PhaseSurvives(host, s, u, m, s.joins[m]);
      }
      SamePhase(host, u, t, m, t.joins[m]);
    }
    forall m | m in t.manifests ensures Reaches(host, t, m, t.manifests[m]) {
      ReachesSurvives(host, s, t, m, s.manifests[m]);
    }
    SameMembers(host, u, t);
  }

  lemma SamePhase(host: Hosts, s: State, t: State, n: nat, p: Phase)
    requires PhaseOk(host, s, n, p) && t.members == s.members && t.up == s.up && t.manifests == s.manifests
    ensures PhaseOk(host, t, n, p)
  {
  }

  lemma WriteKeeps(host: Hosts, s: State, n: nat)
    requires Inv(host, s) && Enabled(s, Write(n))
    ensures Inv(host, Step(host, s, Write(n)))
  {
    hide MembersOk, Reaches;
    var t := Step(host, s, Write(n));
    SameMembers(host, s, t);
    forall m | m in t.manifests ensures Reaches(host, t, m, t.manifests[m]) {
      ReachesSurvives(host, s, t, m, t.manifests[m]);
    }
    forall m | m in t.joins ensures PhaseOk(host, t, m, t.joins[m]) {
      if m != n {
        PhaseSurvives(host, s, t, m, s.joins[m]);
      }
    }
  }

  lemma StartsKeep(host: Hosts, s: State, n: nat)
    requires Inv(host, s) && Enabled(s, Start(n))
    ensures Inv(host, Step(host, s, Start(n)))
  {
    hide MembersOk, Reaches, PhaseOk, Grows;
    var t := Step(host, s, Start(n));
    StartKeeps(host, s, n);
    forall m | m in t.joins ensures PhaseOk(host, t, m, t.joins[m]) {
      PhaseSurvives(host, s, t, m, s.joins[m]);
    }
    forall m | m in t.manifests ensures Reaches(host, t, m, t.manifests[m]) {
      ReachesSurvives(host, s, t, m, s.manifests[m]);
    }
  }

  lemma GrowsUp(ms: seq<Member>, up: set<nat>, next: seq<Member>, upNext: set<nat>)
    requires Grows(ms, up, next, upNext)
    ensures up <= upNext
  {
  }

  /** Every heal attempt of a bootstrapped node finds the leader and nothing to update. */
  lemma {:induction false} HealFindsLeader(host: Hosts, s: State, n: nat)
    requires Injective(host) && Inv(host, s) && n in s.manifests
    ensures HealTried(s, host(n), n) == s
  {
    if !Answers(s.members, s.up, n) {
      var list := s.manifests[n];
      var i :| 0 <= i < |list| && list[i].url != n && list[i].name == Some(host(list[i].url))
               && Answers(s.members, s.up, list[i].url);
      assert host(list[i].url) != host(n);
    }
    assert Contacts(s, host(n), n);
    assert SyncUrl(s.members, host(n), n) == Some(s.members);
  }

  lemma NoForce(host: Hosts, s: State, n: nat)
    requires Inv(host, s)
    ensures !Enabled(s, HealForce(n))
  {
  }

  lemma SameMembers(host: Hosts, s: State, t: State)
    requires MembersOk(host, s) && t.members == s.members && t.up == s.up && t.nextId == s.nextId
    ensures MembersOk(host, t) && Grows(s.members, s.up, t.members, t.up)
  {
  }

  /** A join that promotes itself, or sees itself promoted, ends as a voter. */
  lemma {:induction false} SelfPromotionKeeps(host: Hosts, s: State, n: nat, i: Option<nat>, answered: bool)
    requires Inv(host, s) && Enabled(s, PromoteSelf(n, i, answered))
    ensures Inv(host, Step(host, s, PromoteSelf(n, i, answered)))
  {
    hide MembersOk, HasLeader, Grows, FirstWithUrl, Promoted;
    var own := FirstWithUrl(s.joins[n].seen, n);
    var u := if i.Some? then Promoted(s, i.value) else s;
    SameMembers(host, s, s);
    if own.Some? {
      var m := s.joins[n].seen[own.value];
      OwnMember(m, s.members);
      if i.Some? {
        PromotionKeeps(host, s, m.id, i.value);
        SameId(host, s, m, i.value);
        PromotedFrame(s, i.value);
      }
    }
    Carries(host, s, u, n, Promote);
    if IsVoter(u.members, n) {
      Carries(host, s, u, n, Joined);
    }
  }

  lemma PromotedFrame(s: State, i: nat)
    requires i < |s.members|
    ensures Promoted(s, i) == s.(members := Promoted(s, i).members)
  {
  }

  lemma OwnMember(m: Member, ms: seq<Member>)
    requires StillThere(m, ms)
    ensures !m.learner ==> IsVoter(ms, m.url)
  {
  }

  lemma SameId(host: Hosts, s: State, m: Member, i: nat)
    requires MembersOk(host, s) && StillThere(m, s.members) && i < |s.members| && s.members[i].id == m.id
    ensures s.members[i].url == m.url
  {
    hide HasLeader, NamesFit;
    var j :| 0 <= j < |s.members| && s.members[j].id == m.id && s.members[j].url == m.url
             && (!m.learner ==> !s.members[j].learner);
    assert i == j;
  }

  lemma ReadKeeps(host: Hosts, s: State, n: nat)
    requires Inv(host, s) && Enabled(s, ReadMembers(n))
    ensures Inv(host, Step(host, s, ReadMembers(n)))
  {
    hide MembersOk, HasLeader, Reaches, ListFor, HasUrl, HasLearner, Grows, StillThere, LearnerIds;
    FreshListReaches(host, s, n);
    SameMembers(host, s, s);
    forall i | 0 <= i < |s.members| ensures StillThere(s.members[i], s.members) {
      ShownIsThere(s.members, i);
    }
    Carries(host, s, s, n, AfterRead(s.joins[n], s.members, n, host(n)));
  }

  lemma ShownIsThere(ms: seq<Member>, i: nat)
    requires i < |ms|
    ensures StillThere(ms[i], ms)
  {
    assert ms[i].id == ms[i].id;
  }

  lemma HelpKeeps(host: Hosts, s: State, n: nat, i: Option<nat>)
    requires Inv(host, s) && Enabled(s, HelpOne(n, i))
    ensures Inv(host, Step(host, s, HelpOne(n, i)))
  {
    hide MembersOk, HasLeader, Reaches, Promoted, Grows;
    var p := s.joins[n];
    SameMembers(host, s, s);
    if p.todo == [] {
      Carries(host, s, s, n, if p.refused then NextAttempt(p.k) else Add(p.k));
    } else if i.Some? {
      PromotionKeeps(host, s, p.todo[0], i.value);
      PromotedFrame(s, i.value);
      Carries(host, s, Promoted(s, i.value), n, p.(todo := p.todo[1..]));
    } else {
      Carries(host, s, s, n, p.(todo := p.todo[1..]));
    }
  }

  lemma AddKeeps(host: Hosts, s: State, a: Action)
    requires Inv(host, s) && a.AddSelf? && Enabled(s, a)
    ensures Inv(host, Step(host, s, a))
  {
    hide MembersOk, Reaches, Grows;
    SameMembers(host, s, s);
    if a.applied {
      AdditionKeeps(host, s, a.n);
    }
    Carries(host, s, if a.applied then WithLearner(s, a.n) else s, a.n,
      if a.answered then Added else Refused(s.joins[a.n].k, a.duplicate, a.learner));
  }

  /** The steps without effect on the server. */
  lemma OwnStepKeeps(host: Hosts, s: State, a: Action)
    requires Inv(host, s) && Enabled(s, a)
    requires a.Begin? || a.Abort? || a.ConnectFails? || a.ReadFails? || a.Mark? || a.LocalUp?
    ensures Inv(host, Step(host, s, a))
  {
    hide MembersOk, Reaches, Grows, HasLeader;
    SameMembers(host, s, s);
    match a
    case Begin(n) => Carries(host, s, s, n, Attempt(1));
    case Abort(n) => Carries(host, s, s, n, Failed);
    case ConnectFails(n) => Carries(host, s, s, n, NextAttempt(s.joins[n].k));
    case ReadFails(n) => Carries(host, s, s, n, AfterFailure(s.joins[n]));
    case LocalUp(n) => Carries(host, s, s, n, Promote);
    case Mark(n) =>
      var u := s.(marked := s.marked + {n});
      SameMembers(host, s, u);
      Carries(host, s, u, n, Waiting);
  }

  lemma StepKeeps(host: Hosts, s: State, a: Action)
    requires Injective(host) && Inv(host, s) && Enabled(s, a)
    ensures Inv(host, Step(host, s, a))
  {
    hide Inv, Enabled, Step;
    match a
    case ReadMembers(n) => ReadKeeps(host, s, n);
    case HelpOne(n, i) => HelpKeeps(host, s, n, i);
    case AddSelf(_, _, _, _, _) => AddKeeps(host, s, a);
    case Write(n) => WriteKeeps(host, s, n);
    case Start(n) => StartsKeep(host, s, n);
    case PromoteSelf(n, i, answered) => SelfPromotionKeeps(host, s, n, i, answered);
    case HealTry(n) => HealKeeps(host, s, n);
    case HealForce(n) => NoForce(host, s, n);
    case _ => OwnStepKeeps(host, s, a);
  }

  lemma HealKeeps(host: Hosts, s: State, n: nat)
    requires Injective(host) && Inv(host, s) && Enabled(s, HealTry(n))
    ensures Inv(host, Step(host, s, HealTry(n)))
  {
    hide HealTried;
    HealFindsLeader(host, s, n);
  }

  lemma HealthyIsInv(host: Hosts, s: State)
    requires Healthy(host, s)
    ensures Inv(host, s)
  {
  }

  lemma {:induction false} RunKeeps(host: Hosts, s: State, run: seq<Action>)
    requires Injective(host) && Inv(host, s) && CanRun(host, s, run)
    ensures Inv(host, After(host, s, run))
    decreases |run|
  {
    hide Inv, Step, Enabled;
    if run != [] {
      StepKeeps(host, s, run[0]);
      RunKeeps(host, Step(host, s, run[0]), run[1..]);
    }
  }

  /** One learner at most, no peer URL twice, a majority of the voters up, no heal that gets to force
      a new cluster; and every join that reported success is a voter. */
  ghost predicate Safe(t: State) {
    && OneLearner(t.members) && DistinctMembers(t.members) && HasLeader(t.members, t.up)
    && (forall n :: !Enabled(t, HealForce(n)))
    && (forall n :: n in t.joins && t.joins[n].Joined? ==> IsVoter(t.members, n))
  }

  ghost predicate RunsAreSafe(host: Hosts) {
    forall s, run :: Healthy(host, s) && CanRun(host, s, run) ==> Safe(After(host, s, run))
  }

  ghost predicate RunsNeverForce(host: Hosts) {
    forall s, run, n :: Healthy(host, s) && CanRun(host, s, run) ==> !Enabled(After(host, s, run), HealForce(n))
  }

  /** Every heal finds the leader, and its own URL in place. */
  ghost predicate HealsAreIdle(host: Hosts) {
    forall s, run, n ::
      Healthy(host, s) && CanRun(host, s, run) && Enabled(After(host, s, run), HealTry(n))
      ==> Step(host, After(host, s, run), HealTry(n)) == After(host, s, run)
  }

  lemma InvIsSafe(host: Hosts, t: State)
    requires Inv(host, t)
    ensures Safe(t)
  {
    forall n ensures !Enabled(t, HealForce(n)) {
      NoForce(host, t, n);
    }
    forall n | n in t.joins && t.joins[n].Joined? ensures IsVoter(t.members, n) {
      assert PhaseOk(host, t, n, t.joins[n]);
    }
  }

  /** Joins and heals, any number of them in any interleaving, keep the quorum from every healthy
      start exactly when no two nodes share a host name. */
  lemma {:induction false} JoinsKeepQuorum(host: Hosts)
    ensures RunsAreSafe(host) <==> Injective(host)
    ensures RunsNeverForce(host) <==> Injective(host)
  {
    hide Healthy, CanRun, After, Inv, HealTried, ForceAllowed;
    if Injective(host) {
      forall s, run | Healthy(host, s) && CanRun(host, s, run) ensures Safe(After(host, s, run)) {
        HealthyIsInv(host, s);
        RunKeeps(host, s, run);
        InvIsSafe(host, After(host, s, run));
      }
    } else {
      var a: nat, b: nat :| host(a) == host(b) && a != b;
      SharedHostNameForces(host, a, b);
    }
  }

  /** And exactly then every heal of every run changes nothing. */
  lemma {:induction false} HealsChangeNothing(host: Hosts)
    ensures HealsAreIdle(host) <==> Injective(host)
  {
    hide Healthy, CanRun, After, Inv, HealTried, ForceAllowed;
    if Injective(host) {
      forall s, run, n | Healthy(host, s) && CanRun(host, s, run) && Enabled(After(host, s, run), HealTry(n))
        ensures Step(host, After(host, s, run), HealTry(n)) == After(host, s, run)
      {
        HealthyIsInv(host, s);
        RunKeeps(host, s, run);
        HealFindsLeader(host, After(host, s, run), n);
      }
    } else {
      var a: nat, b: nat :| host(a) == host(b) && a != b;
      SharedHostNameForces(host, a, b);
    }
  }

  // ----- what a heal does

  predicate IsFirstNamed(ms: seq<Member>, name: nat, i: int) {
    0 <= i < |ms| && ms[i].name == Some(name) && forall j :: 0 <= j < i ==> ms[j].name != Some(name)
  }

  /** A heal that reaches no leader only takes note of that; one that does moves the first member of
      the node's name to the node's address, unless another member is there, and changes no other. */
  lemma {:induction false} HealMovesItsMember(s: State, name: nat, n: nat)
    requires n in s.manifests
    ensures var t := HealTried(s, name, n);
            && t == s.(members := t.members, suspects := t.suspects) && t.suspects - {n} == s.suspects - {n}
            && if HasLeader(s.members, s.up) && Contacts(s, name, n) then
                 && (forall i :: IsFirstNamed(s.members, name, i) ==>
                       if s.members[i].url == n then n !in t.suspects && t.members == s.members
                       else if HasUrl(s.members, n) then n in t.suspects && t.members == s.members
                       else n !in t.suspects && t.members == s.members[i := s.members[i].(url := n)])
                 && ((forall j :: 0 <= j < |s.members| ==> s.members[j].name != Some(name)) ==>
                       n !in t.suspects && t.members == s.members)
               else n in t.suspects && t.members == s.members
  {
    hide HasLeader, Contacts, HasUrl, FirstNamed;
    FirstNamedIs(s.members, name);
  }

  lemma {:induction false} FirstNamedIs(ms: seq<Member>, name: nat)
    ensures match FirstNamed(ms, name)
            case None => forall j :: 0 <= j < |ms| ==> ms[j].name != Some(name)
            case Some(i) => i < |ms| && ms[i].name == Some(name) && forall j :: 0 <= j < i ==> ms[j].name != Some(name)
  {
    if ms != [] {
      FirstNamedIs(ms[1..], name);
      assert forall j :: 0 < j < |ms| ==> ms[j] == ms[1..][j - 1];
    }
  }

  /** A node that was bootstrapped, found no leader and runs its etcd may force a new cluster iff its
      own list has at least three members or lacks its address; and then it is the only member. */
  lemma {:induction false} ForceNeedsThreeOrAMove(host: Hosts, s: State, n: nat)
    requires n in s.marked && n in s.manifests && n in s.suspects && n in s.up
    ensures Enabled(s, HealForce(n))
       <==> |s.manifests[n]| >= 3 || forall i :: 0 <= i < |s.manifests[n]| ==> s.manifests[n][i].url != n
    ensures Enabled(s, HealForce(n)) ==>
              var t := Step(host, s, HealForce(n));
              && |t.members| == 1 && HasLeader(t.members, t.up) && t.members[0].name == Some(host(n))
              && forall m :: IsVoter(t.members, m) <==> m == n
  {
    if Enabled(s, HealForce(n)) {
      var t := Step(host, s, HealForce(n));
      assert t.members[1..] == [];
      assert t.members[0].url == n;
    }
  }

  // ----- a join that succeeds

  const CALM_JOIN: seq<Action> := [
    Begin(1), ReadMembers(1), AddSelf(1, true, true, false, false), ReadMembers(1), Write(1), Mark(1),
    Start(1), LocalUp(1), ReadMembers(1), PromoteSelf(1, Some(1), true)]

  /** The states of node 1 joining node 0, a lone healthy voter. */
  function Calm(host: Hosts, k: nat): State
    requires k <= |CALM_JOIN|
  {
    var first := Member(0, Some(host(0)), 0, false);
    var second := Member(1, if k <= 6 then None else Some(host(1)), 1, k < 10);
    var own, list := [Entry(Some(host(0)), 0)], [Entry(Some(host(0)), 0), Entry(Some(host(1)), 1)];
    State(
      if k <= 2 then [first] else [first, second],
      if k <= 2 then 1 else 2,
      if k <= 6 then {0} else {0, 1},
      if k <= 4 then map[0 := own] else map[0 := own, 1 := list],
      if k <= 5 then {0} else {0, 1},
      if k == 0 then map[] else map[1 := CalmPhase(host, k)],
      {})
  }

  function CalmPhase(host: Hosts, k: nat): Phase
    requires 1 <= k <= |CALM_JOIN|
  {
    if k == 1 then Attempt(1)
    else if k == 2 then Add(1)
    else if k == 3 then Added
    else if k == 4 then Configured([Entry(Some(host(0)), 0), Entry(Some(host(1)), 1)])
    else if k == 5 then Written
    else if k <= 7 then Waiting
    else if k == 8 then Promote
    else if k == 9 then Listed([Member(0, Some(host(0)), 0, false), Member(1, Some(host(1)), 1, true)])
    else Joined
  }

  lemma CalmMembers(host: Hosts, k: nat)
    requires k <= |CALM_JOIN|
    ensures var s := Calm(host, k);
            && HasLeader(s.members, s.up)
            && (HasUrl(s.members, 1) <==> k >= 3) && (HasLearner(s.members) <==> 3 <= k < 10)
            && (k >= 3 ==> FirstWithUrl(s.members, 1) == Some(1))
            && (k == 3 && host(0) != host(1)
                ==> ListFor(s.members, 1, host(1)) == [Entry(Some(host(0)), 0), Entry(Some(host(1)), 1)])
  {
    var ms, up := Calm(host, k).members, Calm(host, k).up;
    assert Voters(ms[1..]) == (if k == 10 then 1 else 0) && VotersUp(ms[1..], up) <= Voters(ms[1..]) by {
      MoreUp(ms[1..], up, up);
      if k >= 3 {
        assert ms[1..] == [ms[1]];
      }
    }
    if k == 10 {
      assert ms[1..] == [ms[1]];
    }
    if k >= 3 {
      assert ms[1].url == 1 && ms[1].learner == (k < 10);
      assert FirstWithUrl(ms[1..], 1) == Some(0);
    }
  }

  lemma CalmStep(host: Hosts, k: nat)
    requires k < |CALM_JOIN| && host(0) != host(1)
    ensures Enabled(Calm(host, k), CALM_JOIN[k])
    ensures Step(host, Calm(host, k), CALM_JOIN[k]) == Calm(host, k + 1)
  {
    hide HasLeader, HasUrl, HasLearner, FirstWithUrl, ListFor;
    CalmMembers(host, k);
  }

  lemma {:induction false} CalmRun(host: Hosts, k: nat)
    requires k <= |CALM_JOIN| && host(0) != host(1)
    ensures CanRun(host, Calm(host, k), CALM_JOIN[k..])
    ensures After(host, Calm(host, k), CALM_JOIN[k..]) == Calm(host, |CALM_JOIN|)
    decreases |CALM_JOIN| - k
  {
    hide Calm, Enabled, Step;
    if k < |CALM_JOIN| {
      CalmStep(host, k);
      CalmRun(host, k + 1);
      assert CALM_JOIN[k..][1..] == CALM_JOIN[k + 1..];
    }
  }

  /** From a lone healthy voter a join can succeed, and then two voters are up. */
  lemma {:induction false} JoinsCanSucceed(host: Hosts)
    requires host(0) != host(1)
    ensures Healthy(host, Calm(host, 0)) && CanRun(host, Calm(host, 0), CALM_JOIN)
    ensures var t := After(host, Calm(host, 0), CALM_JOIN);
            |t.members| == 2 && IsVoter(t.members, 0) && IsVoter(t.members, 1) && t.up == {0, 1}
            && t.joins == map[1 := Joined]
  {
    hide CanRun, After;
    CalmRun(host, 0);
    assert CALM_JOIN[0..] == CALM_JOIN;
    CalmMembers(host, 0);
    var t := Calm(host, |CALM_JOIN|);
    assert t.members[0].url == 0 && t.members[1].url == 1;
    assert Calm(host, 0).members[0].url == 0;
  }

  // ----- helping a learner that was left behind

  lemma {:induction false} IdsOfLearners(ms: seq<Member>, id: nat)
    ensures id in LearnerIds(ms) <==> exists i :: 0 <= i < |ms| && ms[i].learner && ms[i].id == id
  {
    if ms != [] {
      IdsOfLearners(ms[1..], id);
      if i :| 0 <= i < |ms| && ms[i].learner && ms[i].id == id {
        assert i == 0 || ms[1..][i - 1] == ms[i];
      }
      if i :| 0 <= i < |ms[1..]| && ms[1..][i].learner && ms[1..][i].id == id {
        assert ms[i + 1] == ms[1..][i];
      }
    }
  }

  /** Before it adds itself a join lists the learners to promote: exactly the ids of learners. */
  lemma {:induction false} HelpListsTheLearners(host: Hosts, s: State, n: nat, id: nat)
    requires Enabled(s, ReadMembers(n)) && s.joins[n].Help?
    ensures var p := Step(host, s, ReadMembers(n)).joins[n];
            && p.Helping? && p.k == s.joins[n].k && p.refused == s.joins[n].refused
            && (id in p.todo <==> exists i :: 0 <= i < |s.members| && s.members[i].learner && s.members[i].id == id)
  {
    hide HasLeader, LearnerIds;
    IdsOfLearners(s.members, id);
  }

  lemma {:induction false} OneLearnerId(ms: seq<Member>, i: nat)
    requires OneLearner(ms) && i < |ms| && ms[i].learner
    ensures LearnerIds(ms) == [ms[i].id]
  {
    assert forall k :: 0 <= k < |ms[1..]| ==> ms[1..][k] == ms[k + 1];
    if i == 0 {
      NoLearnerIds(ms[1..]);
    } else {
      OneLearnerId(ms[1..], i - 1);
    }
  }

  lemma {:induction false} NoLearnerIds(ms: seq<Member>)
    requires forall k :: 0 <= k < |ms| ==> !ms[k].learner
    ensures LearnerIds(ms) == []
  {
    if ms != [] {
      NoLearnerIds(ms[1..]);
    }
  }

  // ----- every node can join

  /** The run ends with the node's join a success: it is a voter, every member is still there, and
      the voters still are voters. */
  predicate Wins(host: Hosts, s: State, n: nat, run: seq<Action>) {
    CanRun(host, s, run)
    && var t := After(host, s, run);
       && n in t.joins && t.joins[n].Joined? && IsVoter(t.members, n)
       && Grows(s.members, s.up, t.members, t.up)
  }

  lemma WinsLater(host: Hosts, s: State, a: Action, n: nat, run: seq<Action>)
    requires Enabled(s, a) && Wins(host, Step(host, s, a), n, run)
    requires Grows(s.members, s.up, Step(host, s, a).members, Step(host, s, a).up)
    ensures Wins(host, s, n, [a] + run)
  {
    hide Enabled, Step, IsVoter;
    assert ([a] + run)[1..] == run;
  }

  lemma SameGrows(ms: seq<Member>, up: set<nat>)
    ensures Grows(ms, up, ms, up)
  {
  }

  lemma InvParts(host: Hosts, s: State)
    requires Inv(host, s)
    ensures MembersOk(host, s) && HasLeader(s.members, s.up) && DistinctMembers(s.members) && OneLearner(s.members)
  {
  }

  lemma FirstIsOnly(ms: seq<Member>, url: nat, i: nat)
    requires DistinctMembers(ms) && i < |ms| && ms[i].url == url
    ensures FirstWithUrl(ms, url) == Some(i)
  {
    hide FirstWithUrl;
    var r := FirstWithUrl(ms, url);
    assert HasUrl(ms, url);
  }

  lemma VoterAt(ms: seq<Member>, i: nat)
    requires i < |ms| && !ms[i].learner
    ensures IsVoter(ms, ms[i].url)
  {
  }

  lemma LearnersAreOne(ms: seq<Member>, i: nat, j: nat)
    requires OneLearner(ms) && i < |ms| && ms[i].learner
    ensures HasLearner(ms) && (j < |ms| && ms[j].learner ==> i == j)
  {
  }

  /** A running learner promotes itself; a voter finds that it is one. */
  lemma FromPromote(host: Hosts, s: State, n: nat, i: nat) returns (run: seq<Action>)
    requires Injective(host) && Inv(host, s) && n in s.joins && s.joins[n].Promote? && n in s.up
    requires i < |s.members| && s.members[i].url == n
    ensures Wins(host, s, n, run)
  {
    hide CanRun, After, HasLeader, Inv, IsVoter, Grows, FirstWithUrl, MembersOk, Promoted;
    InvParts(host, s);
    FirstIsOnly(s.members, n, i);
    var t := Step(host, s, ReadMembers(n));
    var b := if s.members[i].learner then PromoteSelf(n, Some(i), true) else PromoteSelf(n, None, false);
    var u := Step(host, t, b);
    SameGrows(s.members, s.up);
    if s.members[i].learner {
      PromotionKeeps(host, s, s.members[i].id, i);
      PromotedFrame(t, i);
      SamePromotion(s, t, i);
    } else {
      VoterAt(s.members, i);
    }
    EndsHere(host, u, n);
    WinsLater(host, t, b, n, []);
    WinsLater(host, s, ReadMembers(n), n, [b] + []);
    run := [ReadMembers(n)] + ([b] + []);
  }

  lemma SamePromotion(s: State, t: State, i: nat)
    requires i < |s.members| && t.members == s.members
    ensures Promoted(t, i).members == Promoted(s, i).members
  {
  }

  lemma EndsHere(host: Hosts, s: State, n: nat)
    requires n in s.joins && s.joins[n].Joined? && IsVoter(s.members, n)
    ensures Wins(host, s, n, [])
  {
  }

  /** A member with its manifest in place starts its etcd. */
  lemma FromWaiting(host: Hosts, s: State, n: nat, i: nat) returns (run: seq<Action>)
    requires Injective(host) && Inv(host, s) && n in s.joins && s.joins[n].Waiting? && n in s.manifests
    requires i < |s.members| && s.members[i].url == n
    ensures Wins(host, s, n, run)
  {
    hide CanRun, After, HasLeader, Inv, IsVoter, Grows, FirstWithUrl, MembersOk;
    InvParts(host, s);
    FirstIsOnly(s.members, n, i);
    assert HasUrl(s.members, n);
    StartKeeps(host, s, n);
    StepKeeps(host, s, Start(n));
    var t := Step(host, s, Start(n));
    StepKeeps(host, t, LocalUp(n));
    run := FromPromote(host, Step(host, t, LocalUp(n)), n, i);
    SameGrows(t.members, t.up);
    WinsLater(host, t, LocalUp(n), n, run);
    WinsLater(host, s, Start(n), n, [LocalUp(n)] + run);
    run := [Start(n)] + ([LocalUp(n)] + run);
  }

  /** About to list, with nothing else to do for a member. */
  predicate Lists(p: Phase) { p.Added? || p.Attempt? || (p.Refused? && p.duplicate) }

  /** A member that reads the list, after it was added or because it is there already, writes its
      files. */
  lemma FromMember(host: Hosts, s: State, n: nat, i: nat) returns (run: seq<Action>)
    requires Injective(host) && Inv(host, s) && n in s.joins && Lists(s.joins[n])
    requires i < |s.members| && s.members[i].url == n
    ensures Wins(host, s, n, run)
  {
    hide CanRun, After, HasLeader, Inv, IsVoter, Grows, ListFor, MembersOk;
    InvParts(host, s);
    assert HasUrl(s.members, n);
    StepKeeps(host, s, ReadMembers(n));
    var t := Step(host, s, ReadMembers(n));
    StepKeeps(host, t, Write(n));
    var u := Step(host, t, Write(n));
    StepKeeps(host, u, Mark(n));
    run := FromWaiting(host, Step(host, u, Mark(n)), n, i);
    SameGrows(s.members, s.up);
    WinsLater(host, u, Mark(n), n, run);
    WinsLater(host, t, Write(n), n, [Mark(n)] + run);
    WinsLater(host, s, ReadMembers(n), n, [Write(n)] + ([Mark(n)] + run));
    run := [ReadMembers(n)] + ([Write(n)] + ([Mark(n)] + run));
  }

  /** As soon as no member is a learner a join gets to add its node. */
  lemma FromAdd(host: Hosts, s: State, n: nat) returns (run: seq<Action>)
    requires Injective(host) && Inv(host, s) && n in s.joins && s.joins[n].Add?
    requires !HasLearner(s.members) && !HasUrl(s.members, n)
    ensures Wins(host, s, n, run)
  {
    hide CanRun, After, HasLeader, Inv, IsVoter, Grows, MembersOk;
    var a := AddSelf(n, true, true, false, false);
    InvParts(host, s);
    AdditionKeeps(host, s, n);
    StepKeeps(host, s, a);
    run := FromMember(host, Step(host, s, a), n, |s.members|);
    WinsLater(host, s, a, n, run);
    run := [a] + run;
  }

  /** A join that lists a running learner promotes it and goes on to add its own node. */
  lemma FromHelp(host: Hosts, s: State, n: nat, i: nat) returns (run: seq<Action>)
    requires Injective(host) && Inv(host, s) && n in s.joins && s.joins[n].Help? && !s.joins[n].refused
    requires i < |s.members| && s.members[i].learner && s.members[i].url in s.up && !HasUrl(s.members, n)
    ensures Wins(host, s, n, run) && IsVoter(After(host, s, run).members, s.members[i].url)
  {
    hide CanRun, After, HasLeader, Inv, IsVoter, Grows, MembersOk, LearnerIds, HasUrl, HasLearner, Promoted;
    InvParts(host, s);
    OneLearnerId(s.members, i);
    StepKeeps(host, s, ReadMembers(n));
    var t := Step(host, s, ReadMembers(n));
    var b, c := HelpOne(n, Some(i)), HelpOne(n, None);
    StepKeeps(host, t, b);
    PromotionKeeps(host, s, s.members[i].id, i);
    PromotedFrame(t, i);
    SamePromotion(s, t, i);
    var u := Step(host, t, b);
    PromotedUrls(s, i, n);
    StepKeeps(host, u, c);
    run := FromAdd(host, Step(host, u, c), n);
    SameGrows(u.members, u.up);
    WinsLater(host, u, c, n, run);
    VoterStays(host, u, n, [c] + run, s.members[i].url);
    WinsLater(host, t, b, n, [c] + run);
    SameGrows(s.members, s.up);
    WinsLater(host, s, ReadMembers(n), n, [b] + ([c] + run));
    AfterTwo(host, s, ReadMembers(n), b, [c] + run);
    run := [ReadMembers(n)] + ([b] + ([c] + run));
  }

  lemma AfterTwo(host: Hosts, s: State, a: Action, b: Action, run: seq<Action>)
    requires Enabled(s, a) && Enabled(Step(host, s, a), b) && CanRun(host, Step(host, Step(host, s, a), b), run)
    ensures CanRun(host, s, [a] + ([b] + run))
    ensures After(host, s, [a] + ([b] + run)) == After(host, Step(host, Step(host, s, a), b), run)
  {
    hide Enabled, Step;
    assert ([a] + ([b] + run))[1..] == [b] + run && ([b] + run)[1..] == run;
  }

  lemma VoterStays(host: Hosts, s: State, n: nat, run: seq<Action>, url: nat)
    requires Wins(host, s, n, run) && IsVoter(s.members, url)
    ensures IsVoter(After(host, s, run).members, url)
  {
    hide CanRun, After;
    var i :| 0 <= i < |s.members| && s.members[i].url == url && !s.members[i].learner;
    assert After(host, s, run).members[i].url == url;
  }

  /** Once the only learner is promoted there is none, and the URLs are the same. */
  lemma PromotedUrls(s: State, i: nat, n: nat)
    requires OneLearner(s.members) && i < |s.members| && s.members[i].learner && !HasUrl(s.members, n)
    ensures !HasLearner(Promoted(s, i).members) && !HasUrl(Promoted(s, i).members, n)
  {
    var ms := Promoted(s, i).members;
    assert forall k :: 0 <= k < |ms| ==> ms[k].url == s.members[k].url && !ms[k].learner;
  }

  /** The first steps of a join that is no member: list, and then help the learner or add itself. */
  lemma FromAttempt(host: Hosts, s: State, n: nat) returns (run: seq<Action>)
    requires Injective(host) && Inv(host, s) && n in s.joins && s.joins[n].Attempt? && !HasUrl(s.members, n)
    requires forall i :: 0 <= i < |s.members| && s.members[i].learner ==> s.members[i].url in s.up
    ensures Wins(host, s, n, run)
    ensures forall i :: 0 <= i < |s.members| ==> IsVoter(After(host, s, run).members, s.members[i].url)
  {
    hide CanRun, After, HasLeader, Inv, IsVoter, Grows, MembersOk, HasUrl;
    InvParts(host, s);
    var a, j: nat := ReadMembers(n), 0;
    StepKeeps(host, s, a);
    var t := Step(host, s, a);
    if HasLearner(s.members) {
      j :| j < |s.members| && s.members[j].learner;
      run := FromHelp(host, t, n, j);
    } else {
      run := FromAdd(host, t, n);
    }
    SameGrows(s.members, s.up);
    WinsLater(host, s, a, n, run);
    AfterOne(host, s, a, run);
    forall i | 0 <= i < |s.members| ensures IsVoter(After(host, t, run).members, s.members[i].url) {
      if s.members[i].learner {
        LearnersAreOne(s.members, i, j);
      } else {
        VoterAt(t.members, i);
        VoterStays(host, t, n, run, s.members[i].url);
      }
    }
    run := [a] + run;
  }

  lemma AfterOne(host: Hosts, s: State, a: Action, run: seq<Action>)
    requires Enabled(s, a) && CanRun(host, Step(host, s, a), run)
    ensures CanRun(host, s, [a] + run) && After(host, s, [a] + run) == After(host, Step(host, s, a), run)
  {
    hide Enabled, Step;
    assert ([a] + run)[1..] == run;
  }

  /** From every state that runs reach, a node that was not bootstrapped and is not at it can join,
      if all learners run, itself aside: as a new member, for which a learner that another join left
      behind becomes a voter too, or as the member that an earlier join of its own added. */
  lemma {:induction false} EveryNodeCanJoin(host: Hosts, start: State, before: seq<Action>, n: nat)
    returns (run: seq<Action>)
    requires Injective(host) && Healthy(host, start) && CanRun(host, start, before)
    requires var s := After(host, start, before);
             && n !in s.marked && (n !in s.joins || s.joins[n].Failed?)
             && forall i :: 0 <= i < |s.members| && s.members[i].learner ==> s.members[i].url in s.up + {n}
    ensures var s := After(host, start, before);
            && CanRun(host, s, run)
            && var t := After(host, s, run);
               && n in t.joins && t.joins[n].Joined? && IsVoter(t.members, n)
               && forall i :: 0 <= i < |s.members| && (!s.members[i].learner || !HasUrl(s.members, n)) ==>
                    IsVoter(t.members, s.members[i].url)
  {
    hide CanRun, After, HasLeader, Inv, IsVoter, Grows, MembersOk, Healthy;
    var s := After(host, start, before);
    HealthyIsInv(host, start);
    RunKeeps(host, start, before);
    InvParts(host, s);
    StepKeeps(host, s, Begin(n));
    var t := Step(host, s, Begin(n));
    if HasUrl(s.members, n) {
      var k: nat :| k < |s.members| && s.members[k].url == n;
      run := FromMember(host, t, n, k);
    } else {
      run := FromAttempt(host, t, n);
    }
    AfterOne(host, s, Begin(n), run);
    forall i | 0 <= i < |s.members| && (!s.members[i].learner || !HasUrl(s.members, n))
      ensures IsVoter(After(host, t, run).members, s.members[i].url)
    {
      if !s.members[i].learner {
        VoterAt(t.members, i);
        VoterStays(host, t, n, run, s.members[i].url);
      }
    }
    run := [Begin(n)] + run;
  }

  /** Such a learner is left behind when a join ends after its etcd has started. */
  lemma {:induction false} LearnersAreLeftBehind(host: Hosts)
    requires host(0) != host(1)
    ensures var s, run := Calm(host, 0), CALM_JOIN[..7] + [Abort(1)];
            && Healthy(host, s) && CanRun(host, s, run)
            && var t := After(host, s, run);
               && |t.members| == 2 && t.members[1] == Member(1, Some(host(1)), 1, true) && 1 in t.up
               && t.joins == map[1 := Failed] && 2 !in t.marked && !HasUrl(t.members, 2)
  {
    hide CanRun, After, Calm, CalmPhase;
    CalmStart(host);
    CalmPrefix(host, 0);
    assert CALM_JOIN[0..7] == CALM_JOIN[..7];
    CalmSeven(host);
  }

  lemma CalmStart(host: Hosts)
    ensures Healthy(host, Calm(host, 0))
  {
    CalmMembers(host, 0);
    assert Calm(host, 0).members[0].url == 0;
  }

  lemma CalmSeven(host: Hosts)
    ensures var t := Step(host, Calm(host, 7), Abort(1));
            && |t.members| == 2 && t.members[1] == Member(1, Some(host(1)), 1, true) && 1 in t.up
            && t.joins == map[1 := Failed] && 2 !in t.marked && !HasUrl(t.members, 2)
    ensures Enabled(Calm(host, 7), Abort(1))
  {
  }

  lemma {:induction false} CalmPrefix(host: Hosts, k: nat)
    requires k <= 7 && host(0) != host(1)
    ensures Enabled(Calm(host, 7), Abort(1))
    ensures CanRun(host, Calm(host, k), CALM_JOIN[k..7] + [Abort(1)])
    ensures After(host, Calm(host, k), CALM_JOIN[k..7] + [Abort(1)]) == Step(host, Calm(host, 7), Abort(1))
    decreases 7 - k
  {
    hide Calm, Enabled, Step;
    CalmSeven(host);
    if k < 7 {
      CalmStep(host, k);
      CalmPrefix(host, k + 1);
      assert CALM_JOIN[k..7] + [Abort(1)] == [CALM_JOIN[k]] + (CALM_JOIN[k + 1..7] + [Abort(1)]);
      AfterOne(host, Calm(host, k), CALM_JOIN[k], CALM_JOIN[k + 1..7] + [Abort(1)]);
    } else {
      assert CALM_JOIN[7..7] + [Abort(1)] == [Abort(1)] + [];
      var t := Step(host, Calm(host, 7), Abort(1));
      assert CanRun(host, t, []) && After(host, t, []) == t;
      AfterOne(host, Calm(host, 7), Abort(1), []);
    }
  }

  // ----- calls that fail

  /** Once a join has been refused, or could not list, or could not help, it may still succeed. */
  predicate MayRetry(p: Phase) {
    (p.Attempt? || p.Help? || (p.Refused? && !p.duplicate)) && p.k < 90
  }

  /** A join that does not have to help adds its node, or is refused for a learner and tries again. */
  lemma FromAnyAdd(host: Hosts, s: State, n: nat) returns (run: seq<Action>)
    requires Injective(host) && Inv(host, s) && n in s.joins && s.joins[n].Add? && s.joins[n].k < 90
    requires !HasUrl(s.members, n)
    requires forall i :: 0 <= i < |s.members| && s.members[i].learner ==> s.members[i].url in s.up
    ensures Wins(host, s, n, run)
  {
    hide CanRun, After, HasLeader, Inv, IsVoter, Grows, MembersOk, HasUrl, HasLearner;
    if HasLearner(s.members) {
      var a, b := AddSelf(n, false, false, false, true), ReadFails(n);
      StepKeeps(host, s, a);
      var t := Step(host, s, a);
      StepKeeps(host, t, b);
      run := FromRefused(host, Step(host, t, b), n);
      SameGrows(s.members, s.up);
      WinsLater(host, t, b, n, run);
      WinsLater(host, s, a, n, [b] + run);
      run := [a] + ([b] + run);
    } else {
      run := FromAdd(host, s, n);
    }
  }

  /** A join that was refused for a learner promotes what it can, and is back at the top of its loop. */
  lemma FromRefused(host: Hosts, s: State, n: nat) returns (run: seq<Action>)
    requires Injective(host) && Inv(host, s) && n in s.joins && s.joins[n].Help? && s.joins[n].refused
    requires s.joins[n].k < 90 && !HasUrl(s.members, n)
    requires forall i :: 0 <= i < |s.members| && s.members[i].learner ==> s.members[i].url in s.up
    ensures Wins(host, s, n, run)
  {
    hide CanRun, After, HasLeader, Inv, IsVoter, Grows, MembersOk, LearnerIds, HasUrl, Promoted;
    InvParts(host, s);
    var a, c := ReadMembers(n), HelpOne(n, None);
    StepKeeps(host, s, a);
    var t := Step(host, s, a);
    SameGrows(s.members, s.up);
    if HasLearner(s.members) {
      var i: nat :| i < |s.members| && s.members[i].learner;
      OneLearnerId(s.members, i);
      var b := HelpOne(n, Some(i));
      StepKeeps(host, t, b);
      PromotionKeeps(host, s, s.members[i].id, i);
      PromotedFrame(t, i);
      SamePromotion(s, t, i);
      var u := Step(host, t, b);
      PromotedUrls(s, i, n);
      NoLearnerLeft(u.members);
      StepKeeps(host, u, c);
      run := FromAttempt(host, Step(host, u, c), n);
      SameGrows(u.members, u.up);
      WinsLater(host, u, c, n, run);
      WinsLater(host, t, b, n, [c] + run);
      WinsLater(host, s, a, n, [b] + ([c] + run));
      run := [a] + ([b] + ([c] + run));
    } else {
      NoLearnerIds(s.members);
      StepKeeps(host, t, c);
      run := FromAttempt(host, Step(host, t, c), n);
      SameGrows(t.members, t.up);
      WinsLater(host, t, c, n, run);
      WinsLater(host, s, a, n, [c] + run);
      run := [a] + ([c] + run);
    }
  }

  lemma NoLearnerLeft(ms: seq<Member>)
    requires !HasLearner(ms)
    ensures forall i :: 0 <= i < |ms| ==> !ms[i].learner
  {
  }

  /** Whatever call of a join fails before its node is added, while it has attempts left: if all
      learners run it can still succeed. */
  lemma {:induction false} FailuresAreSurvived(host: Hosts, start: State, before: seq<Action>, n: nat)
    returns (run: seq<Action>)
    requires Injective(host) && Healthy(host, start) && CanRun(host, start, before)
    requires var s := After(host, start, before);
             && n in s.joins && MayRetry(s.joins[n]) && !HasUrl(s.members, n)
             && forall i :: 0 <= i < |s.members| && s.members[i].learner ==> s.members[i].url in s.up
    ensures var s := After(host, start, before);
            && CanRun(host, s, [ReadFails(n)] + run)
            && var t := After(host, s, [ReadFails(n)] + run);
               n in t.joins && t.joins[n].Joined? && IsVoter(t.members, n)
  {
    hide CanRun, After, HasLeader, Inv, IsVoter, Grows, MembersOk, HasUrl, Healthy;
    var s := After(host, start, before);
    HealthyIsInv(host, start);
    RunKeeps(host, start, before);
    StepKeeps(host, s, ReadFails(n));
    var t := Step(host, s, ReadFails(n));
    if t.joins[n].Add? {
      run := FromAnyAdd(host, t, n);
    } else if t.joins[n].Attempt? {
      run := FromAttempt(host, t, n);
    } else {
      run := FromRefused(host, t, n);
    }
    AfterOne(host, s, ReadFails(n), run);
  }

  /** A failed list before the add costs no attempt: the join goes on to add its node. After a refusal
      it costs one, and the ninetieth is the last. */
  lemma {:induction false} RefusalsCostAttempts(host: Hosts, s: State, n: nat)
    requires Enabled(s, ReadFails(n))
    ensures var p, q := s.joins[n], Step(host, s, ReadFails(n)).joins[n];
            && (p.Attempt? || (p.Help? && !p.refused) ==> q == Add(p.k))
            && ((p.Help? && p.refused) || (p.Refused? && !p.learner) ==>
                  q == if p.k < 90 then Attempt(p.k + 1) else Failed)
            && (p.Refused? && p.learner ==> q == Help(p.k, true))
  {
  }

  /** An add that the server took but did not answer: the join reads the list and goes on. */
  lemma {:induction false} LostAnswersAreSurvived(host: Hosts, start: State, before: seq<Action>, n: nat)
    returns (run: seq<Action>)
    requires Injective(host) && Healthy(host, start) && CanRun(host, start, before)
    requires var s := After(host, start, before);
             n in s.joins && s.joins[n].Add? && !HasUrl(s.members, n) && !HasLearner(s.members)
    ensures var s, a := After(host, start, before), AddSelf(n, true, false, true, false);
            && CanRun(host, s, [a] + run)
            && var t := After(host, s, [a] + run);
               n in t.joins && t.joins[n].Joined? && IsVoter(t.members, n)
  {
    hide CanRun, After, HasLeader, Inv, IsVoter, Grows, MembersOk, Healthy;
    var s, a := After(host, start, before), AddSelf(n, true, false, true, false);
    HealthyIsInv(host, start);
    RunKeeps(host, start, before);
    InvParts(host, s);
    StepKeeps(host, s, a);
    run := FromMember(host, Step(host, s, a), n, |s.members|);
    AfterOne(host, s, a, run);
  }

  // ----- giving up

  function Failures(n: nat, j: nat): seq<Action> {
    if j == 0 then [] else [ConnectFails(n)] + Failures(n, j - 1)
  }

  lemma {:induction false} AttemptsRunOut(host: Hosts, s: State, n: nat, k: nat, j: nat)
    requires n in s.joins && s.joins[n] == Attempt(k) && 1 <= k <= 90 && k + j <= 91
    ensures CanRun(host, s, Failures(n, j))
    ensures After(host, s, Failures(n, j)) == To(s, n, if k + j <= 90 then Attempt(k + j) else Failed)
    decreases j
  {
    if j == 0 {
      assert s.joins[n := Attempt(k)] == s.joins;
    } else {
      var t := Step(host, s, ConnectFails(n));
      if k < 90 {
        AttemptsRunOut(host, t, n, k + 1, j - 1);
        assert s.joins[n := Attempt(k + 1)][n := if k + j <= 90 then Attempt(k + j) else Failed]
          == s.joins[n := if k + j <= 90 then Attempt(k + j) else Failed];
      } else {
        assert Failures(n, 0) == [];
      }
      AfterOne(host, s, ConnectFails(n), Failures(n, j - 1));
    }
  }

  /** A join that cannot connect gives up after 90 attempts, and not before. */
  lemma {:induction false} GivesUpAfterNinety(host: Hosts, s: State, n: nat, j: nat)
    requires Enabled(s, Begin(n)) && j <= 90
    ensures var run := [Begin(n)] + Failures(n, j);
            && CanRun(host, s, run) && n in After(host, s, run).joins
            && (After(host, s, run).joins[n].Failed? <==> j == 90)
  {
    hide CanRun, After, Failures;
    AttemptsRunOut(host, Step(host, s, Begin(n)), n, 1, j);
    AfterOne(host, s, Begin(n), Failures(n, j));
  }

  // ----- why the premises and the learner are needed

  /** Adding a joiner as a voter instead: the leader survives exactly when the majority has one
      voter to spare, which a single healthy voter has not. */
  lemma {:induction false} VotingAddNeedsASpareVoter(s: State, n: nat)
    requires n !in s.up
    ensures HasLeader(s.members + [Member(s.nextId, None, n, false)], s.up)
       <==> 2 * VotersUp(s.members, s.up) > Voters(s.members) + 1
    ensures Voters(s.members) == 1
        ==> !HasLeader(s.members + [Member(s.nextId, None, n, false)], s.up)
  {
    var m := Member(s.nextId, None, n, false);
    CountsOfVoter(s.members, s.up, m);
    MoreUp(s.members, s.up, s.up);
  }

  lemma {:induction false} CountsOfVoter(ms: seq<Member>, up: set<nat>, m: Member)
    requires !m.learner && m.url !in up
    ensures Voters(ms + [m]) == Voters(ms) + 1 && VotersUp(ms + [m], up) == VotersUp(ms, up)
  {
    if ms == [] {
      assert ms + [m] == [m];
    } else {
      assert (ms + [m])[1..] == ms[1..] + [m];
      CountsOfVoter(ms[1..], up, m);
    }
  }

  /** Nodes a, b and one more, all of them running voters; b was bootstrapped and lists all three. */
  function Shared(host: Hosts, a: nat, b: nat): State {
    var c := a + b + 1;
    State(
      [Member(0, Some(host(a)), a, false), Member(1, Some(host(b)), b, false), Member(2, Some(host(c)), c, false)],
      3, {a, b, c},
      map[b := [Entry(Some(host(a)), a), Entry(Some(host(b)), b), Entry(Some(host(c)), c)]],
      {b}, map[], {})
  }

  lemma SharedIsHealthy(host: Hosts, a: nat, b: nat)
    requires a != b
    ensures Healthy(host, Shared(host, a, b))
  {
    var s := Shared(host, a, b);
    AllUpCount(s.members, s.up);
    assert s.members[0].url == a && s.members[1].url == b && s.members[2].url == a + b + 1;
  }

  lemma {:induction false} AllUpCount(ms: seq<Member>, up: set<nat>)
    requires forall i :: 0 <= i < |ms| ==> !ms[i].learner && ms[i].url in up
    ensures Voters(ms) == VotersUp(ms, up) == |ms|
  {
    if ms != [] {
      AllUpCount(ms[1..], up);
    }
  }

  /** A heal that meets its own host name on an earlier member tries to move that member to its own
      address, is refused, and counts as one that found no leader. */
  lemma HealIsRefused(host: Hosts, s: State, n: nat, i: nat)
    requires n in s.manifests && HasLeader(s.members, s.up) && Answers(s.members, s.up, n)
    requires FirstNamed(s.members, host(n)) == Some(i) && s.members[i].url != n
    ensures HealTried(s, host(n), n) == s.(suspects := s.suspects + {n})
  {
    assert Contacts(s, host(n), n);
  }

  /** When two nodes share a host name, one heal of the second of three running voters lets it force
      a new cluster while the leader is there. */
  lemma {:induction false} SharedHostNameForces(host: Hosts, a: nat, b: nat)
    requires host(a) == host(b) && a != b
    ensures var s := Shared(host, a, b);
            && Healthy(host, s)
            && CanRun(host, s, [HealTry(b)]) && After(host, s, [HealTry(b)]) == s.(suspects := {b})
            && Enabled(After(host, s, [HealTry(b)]), HealForce(b))
            && CanRun(host, s, []) && Enabled(After(host, s, []), HealTry(b))
            && Step(host, After(host, s, []), HealTry(b)) != After(host, s, [])
  {
    hide HasLeader, HealTried;
    var s := Shared(host, a, b);
    SharedIsHealthy(host, a, b);
    assert s.members[1].url == b;
    HealIsRefused(host, s, b, 0);
    assert CanRun(host, s.(suspects := {b}), []);
    assert [HealTry(b)][1..] == [];
  }
}
