/** Background refreshes of the cluster dashboard (`crates/pertisk-mgmt/src/cluster_resources.rs`,
    `crates/pertisk-mgmt/src/cluster_availability.rs`): polls that answer from a cache and start
    tasks, at most one at a time per cluster. Every access to a shared map is one step. */
module ClusterRefresh {

  const READY: string := "ready"
  const LIVE_TTL: nat := 20
  const FRESH_TTL: nat := 15
  const STALE_TTL: nat := 120

  datatype Availability = Online | Offline | Unknown

  datatype Summary = Summary(cluster: nat, status: string, availability: Availability)

  /** A cached value and when it was stored. */
  datatype Cached<T> = Cached(at: nat, value: T)

  datatype Refresh = Refresh(cluster: nat, status: string)

  /** Where a poll of a cluster stands; `status` is the one of the row it read. */
  datatype Stage =
    | Reading                      // about to look for a live summary
    | Answering(summary: Summary)  // about to start a refresh and return this
    | Starting                     // about to start a refresh
    | Falling                      // about to look for any summary
    | Measuring                    // about to answer from the database alone

  datatype Poll = Poll(cluster: nat, status: string, stage: Stage)

  datatype Answer = Answer(poll: Poll, summary: Summary)

  datatype State = State(
    now: nat,
    rows: map<nat, string>,                        // status of each cluster in the database
    cache: map<nat, Cached<Summary>>,
    inflight: set<nat>,
    tasks: map<nat, Refresh>,                      // gathering or about to leave the set
    probes: map<nat, Refresh>,
    probing: set<nat>,                             // the availability module's own set
    availability: map<nat, Cached<Availability>>,
    polls: map<nat, Poll>,
    answers: seq<Answer>)

  datatype Action =
    | Tick
    | SetStatus(cluster: nat, status: string)
    | Begin(p: nat, cluster: nat)                  // poll p reads the row
    | LookLive(p: nat)
    | Start(p: nat, t: nat)                        // `spawn_live`; t is a new task if it starts one
    | LookAny(p: nat)
    | Measure(p: nat)
    | Remember(t: nat, online: bool)               // the task stores its summary
    | Finish(t: nat)                               // and leaves the set
    | StartProbe(cluster: nat, status: string, t: nat)
    | StoreProbe(t: nat, result: Availability)
    | FinishProbe(t: nat)

  /** `lookup` and `cached_live` with a time limit. */
  predicate Within<T>(now: nat, c: Cached<T>, ttl: nat) { now <= c.at + ttl }

  /** `cached_or`. */
  function CachedOr(s: State, cluster: nat, status: string): Availability {
    if status == READY && cluster in s.availability && Within(s.now, s.availability[cluster], STALE_TTL)
    then s.availability[cluster].value
    else Unknown
  }

  predicate Enabled(s: State, a: Action) {
    match a
    case Tick => true
    case SetStatus(_, _) => true
    case Begin(p, cluster) => p !in s.polls && cluster in s.rows
    case LookLive(p) => p in s.polls && s.polls[p].stage.Reading?
    case Start(p, t) => p in s.polls && (s.polls[p].stage.Answering? || s.polls[p].stage.Starting?) && t !in s.tasks
    case LookAny(p) => p in s.polls && s.polls[p].stage.Falling?
    case Measure(p) => p in s.polls && s.polls[p].stage.Measuring?
    case Remember(t, _) => t in s.tasks
    case Finish(t) => t in s.tasks
    case StartProbe(_, _, t) => t !in s.probes
    case StoreProbe(t, _) => t in s.probes
    case FinishProbe(t) => t in s.probes
  }

  function Answered(s: State, p: nat, summary: Summary): State
    requires p in s.polls
  {
    s.(polls := s.polls - {p}, answers := s.answers + [Answer(s.polls[p], summary)])
  }

  function At(s: State, p: nat, stage: Stage): State
    requires p in s.polls
  {
    s.(polls := s.polls[p := s.polls[p].(stage := stage)])
  }

  /** `spawn_live`: nothing happens if the cluster is in the set. */
  function SpawnLive(s: State, r: Refresh, t: nat): State {
    if r.cluster in s.inflight then s
    else s.(inflight := s.inflight + {r.cluster}, tasks := s.tasks[t := r])
  }

  /** `spawn_refresh` of the availability module. */
  function SpawnProbe(s: State, r: Refresh, t: nat): State {
    if r.status != READY then s
    else if r.cluster in s.availability && Within(s.now, s.availability[r.cluster], FRESH_TTL) then s
    else if r.cluster in s.probing then s
    else s.(probing := s.probing + {r.cluster}, probes := s.probes[t := r])
  }

  /** What a task makes of its row: live usage only if the row was ready. */
  function Gathered(r: Refresh, online: bool): Summary {
    Summary(r.cluster, r.status, if r.status != READY then Unknown else if online then Online else Offline)
  }

  /** The first lookup: answer at once, answer with the new status after starting a refresh, or
      start one first. */
  function Looked(s: State, p: nat): State
    requires p in s.polls
  {
    var poll := s.polls[p];
    if poll.cluster in s.cache && Within(s.now, s.cache[poll.cluster], LIVE_TTL) then
      var summary := s.cache[poll.cluster].value;
      if summary.status == poll.status then Answered(s, p, summary)
      else
        At(s, p, Answering(summary.(status := poll.status,
                                    availability := CachedOr(s, poll.cluster, poll.status))))
    else At(s, p, Starting)
  }

  function Step(s: State, a: Action): State
    requires Enabled(s, a)
  {
    match a
    case Tick => s.(now := s.now + 1)
    case SetStatus(cluster, status) => s.(rows := s.rows[cluster := status])
    case Begin(p, cluster) => s.(polls := s.polls[p := Poll(cluster, s.rows[cluster], Reading)])
    case LookLive(p) => Looked(s, p)
    case Start(p, t) =>
      var poll := s.polls[p];
      var u := SpawnLive(s, Refresh(poll.cluster, poll.status), t);
      if poll.stage.Answering? then Answered(u, p, poll.stage.summary) else At(u, p, Falling)
    case LookAny(p) =>
      var poll := s.polls[p];
      if poll.cluster in s.cache && s.cache[poll.cluster].value.status == poll.status
      then Answered(s, p, s.cache[poll.cluster].value)
      else At(s, p, Measuring)
    case Measure(p) =>
      var poll := s.polls[p];
      Answered(s, p, Summary(poll.cluster, poll.status, CachedOr(s, poll.cluster, poll.status)))
    case Remember(t, online) =>
      var r := s.tasks[t];
      s.(cache := s.cache[r.cluster := Cached(s.now, Gathered(r, online))])
    case Finish(t) => s.(tasks := s.tasks - {t}, inflight := s.inflight - {s.tasks[t].cluster})
    case StartProbe(cluster, status, t) => SpawnProbe(s, Refresh(cluster, status), t)
    case StoreProbe(t, result) =>
      s.(availability := s.availability[s.probes[t].cluster := Cached(s.now, result)])
    case FinishProbe(t) => s.(probes := s.probes - {t}, probing := s.probing - {s.probes[t].cluster})
  }

  predicate CanRun(s: State, run: seq<Action>)
    decreases |run|
  {
    run == [] || (Enabled(s, run[0]) && CanRun(Step(s, run[0]), run[1..]))
  }

  function After(s: State, run: seq<Action>): State
    requires CanRun(s, run)
    decreases |run|
  {
    if run == [] then s else After(Step(s, run[0]), run[1..])
  }

  /** Nothing cached, nothing under way. */
  predicate Idle(s: State) {
    && s.cache == map[] && s.inflight == {} && s.tasks == map[] && s.probes == map[] && s.probing == {}
    && s.polls == map[] && s.answers == []
  }

  // ----- one refresh per cluster

  /** A cluster is in the set iff a task works for it, and then exactly one does. */
  ghost predicate OnePer(busy: set<nat>, tasks: map<nat, Refresh>) {
    && (forall t :: t in tasks ==> tasks[t].cluster in busy)
    && (forall c :: c in busy ==> exists t :: t in tasks && tasks[t].cluster == c)
    && (forall t, u :: t in tasks && u in tasks && tasks[t].cluster == tasks[u].cluster ==> t == u)
  }

  lemma SpawnKeepsOne(busy: set<nat>, tasks: map<nat, Refresh>, t: nat, r: Refresh)
    requires OnePer(busy, tasks) && t !in tasks && r.cluster !in busy
    ensures OnePer(busy + {r.cluster}, tasks[t := r])
  {
    var more := tasks[t := r];
    forall c | c in busy + {r.cluster} ensures exists u :: u in more && more[u].cluster == c {
      if c == r.cluster {
        assert t in more && more[t].cluster == c;
      } else {
        var u :| u in tasks && tasks[u].cluster == c;
        assert u in more && more[u].cluster == c;
      }
    }
  }

  lemma FinishKeepsOne(busy: set<nat>, tasks: map<nat, Refresh>, t: nat)
    requires OnePer(busy, tasks) && t in tasks
    ensures OnePer(busy - {tasks[t].cluster}, tasks - {t})
  {
    var less := tasks - {t};
    forall c | c in busy - {tasks[t].cluster} ensures exists u :: u in less && less[u].cluster == c {
      var u :| u in tasks && tasks[u].cluster == c;
      assert u in less;
    }
  }

  // ----- consistent summaries

  /** Only a ready cluster is said to be on or off line. */
  predicate Fits(s: Summary) { s.status != READY ==> s.availability == Unknown }

  predicate Right(poll: Poll, s: Summary) { s.cluster == poll.cluster && s.status == poll.status && Fits(s) }

  ghost predicate Inv(s: State) {
    && OnePer(s.inflight, s.tasks) && OnePer(s.probing, s.probes)
    && (forall c :: c in s.cache ==> s.cache[c].value.cluster == c && Fits(s.cache[c].value))
    && (forall t :: t in s.probes ==> s.probes[t].status == READY)
    && (forall p :: p in s.polls && s.polls[p].stage.Answering? ==> Right(s.polls[p], s.polls[p].stage.summary))
    && (forall i :: 0 <= i < |s.answers| ==> Right(s.answers[i].poll, s.answers[i].summary))
  }

  lemma StartKeeps(s: State, p: nat, t: nat)
    requires Inv(s) && Enabled(s, Start(p, t))
    ensures Inv(Step(s, Start(p, t)))
  {
    hide OnePer, Answered, At, SpawnLive, Right;
    var poll := s.polls[p];
    SpawnKeeps(s, Refresh(poll.cluster, poll.status), t);
    var u := SpawnLive(s, Refresh(poll.cluster, poll.status), t);
    if poll.stage.Answering? {
      AnsweredKeeps(u, p, poll.stage.summary);
    } else {
      AtKeeps(u, p, Falling);
    }
  }

  lemma SpawnKeeps(s: State, r: Refresh, t: nat)
    requires Inv(s) && t !in s.tasks
    ensures Inv(SpawnLive(s, r, t)) && SpawnLive(s, r, t).polls == s.polls
  {
    hide OnePer, Right;
    if r.cluster !in s.inflight {
      SpawnKeepsOne(s.inflight, s.tasks, t, r);
    }
  }

  lemma AnsweredKeeps(s: State, p: nat, summary: Summary)
    requires Inv(s) && p in s.polls && Right(s.polls[p], summary)
    ensures Inv(Answered(s, p, summary))
  {
    hide OnePer, Right;
  }

  lemma AtKeeps(s: State, p: nat, stage: Stage)
    requires Inv(s) && p in s.polls && (stage.Answering? ==> Right(s.polls[p], stage.summary))
    ensures Inv(At(s, p, stage))
  {
    hide OnePer;
  }

  lemma LookLiveKeeps(s: State, p: nat)
    requires Inv(s) && Enabled(s, LookLive(p))
    ensures Inv(Step(s, LookLive(p)))
  {
    hide OnePer, Answered, At;
    var poll := s.polls[p];
    AtKeeps(s, p, Starting);
    if poll.cluster in s.cache {
      var summary := s.cache[poll.cluster].value;
      var now := summary.(status := poll.status, availability := CachedOr(s, poll.cluster, poll.status));
      AtKeeps(s, p, Answering(now));
      if summary.status == poll.status {
        AnsweredKeeps(s, p, summary);
      }
    }
  }

  lemma LookAnyKeeps(s: State, p: nat)
    requires Inv(s) && Enabled(s, LookAny(p))
    ensures Inv(Step(s, LookAny(p)))
  {
    hide OnePer, Answered, At;
    var poll := s.polls[p];
    AtKeeps(s, p, Measuring);
    if poll.cluster in s.cache && s.cache[poll.cluster].value.status == poll.status {
      AnsweredKeeps(s, p, s.cache[poll.cluster].value);
    }
  }

  lemma MeasureKeeps(s: State, p: nat)
    requires Inv(s) && Enabled(s, Measure(p))
    ensures Inv(Step(s, Measure(p)))
  {
    hide OnePer, Answered;
    var poll := s.polls[p];
    AnsweredKeeps(s, p, Summary(poll.cluster, poll.status, CachedOr(s, poll.cluster, poll.status)));
  }

  lemma BeginKeeps(s: State, p: nat, cluster: nat)
    requires Inv(s) && Enabled(s, Begin(p, cluster))
    ensures Inv(Step(s, Begin(p, cluster)))
  {
    hide OnePer;
  }

  lemma TaskKeeps(s: State, a: Action)
    requires Inv(s) && Enabled(s, a) && (a.Remember? || a.Finish? || a.FinishProbe? || a.StoreProbe?)
    ensures Inv(Step(s, a))
  {
    hide OnePer;
    match a
    case Finish(t) => FinishKeepsOne(s.inflight, s.tasks, t);
    case FinishProbe(t) => FinishKeepsOne(s.probing, s.probes, t);
    case _ =>
  }

  lemma ProbeKeeps(s: State, cluster: nat, status: string, t: nat)
    requires Inv(s) && Enabled(s, StartProbe(cluster, status, t))
    ensures Inv(Step(s, StartProbe(cluster, status, t)))
  {
    hide OnePer;
    if cluster !in s.probing {
      SpawnKeepsOne(s.probing, s.probes, t, Refresh(cluster, status));
    }
  }

  lemma StepKeeps(s: State, a: Action)
    requires Inv(s) && Enabled(s, a)
    ensures Inv(Step(s, a))
  {
    hide Inv, Step, Enabled;
    if a.Start? {
      StartKeeps(s, a.p, a.t);
    } else if a.StartProbe? {
      ProbeKeeps(s, a.cluster, a.status, a.t);
    } else if a.LookLive? {
      LookLiveKeeps(s, a.p);
    } else if a.LookAny? {
      LookAnyKeeps(s, a.p);
    } else if a.Measure? {
      MeasureKeeps(s, a.p);
    } else if a.Begin? {
      BeginKeeps(s, a.p, a.cluster);
    } else if a.Remember? || a.Finish? || a.FinishProbe? || a.StoreProbe? {
      TaskKeeps(s, a);
    } else {
      EnvironmentKeeps(s, a);
    }
  }

  lemma EnvironmentKeeps(s: State, a: Action)
    requires Inv(s) && (a.Tick? || a.SetStatus?)
    ensures Inv(Step(s, a))
  {
    hide OnePer;
  }

  lemma {:induction false} RunKeeps(s: State, run: seq<Action>)
    requires Inv(s) && CanRun(s, run)
    ensures Inv(After(s, run))
    decreases |run|
  {
    hide Inv, Enabled, Step;
    if run != [] {
      StepKeeps(s, run[0]);
      RunKeeps(Step(s, run[0]), run[1..]);
    }
  }

  lemma IdleIsInv(s: State)
    requires Idle(s)
    ensures Inv(s)
  {
  }

  /** Over all interleavings of polls, tasks and probes: a cluster is in the set iff exactly one of
      its refreshes is unfinished, and the same for probes. */
  lemma {:induction false} OneRefreshPerCluster(s: State, run: seq<Action>, cluster: nat)
    requires Idle(s) && CanRun(s, run)
    ensures var t := After(s, run);
            && (cluster in t.inflight <==> exists k :: k in t.tasks && t.tasks[k].cluster == cluster)
            && (forall j, k :: j in t.tasks && k in t.tasks && t.tasks[j].cluster == t.tasks[k].cluster ==> j == k)
            && (cluster in t.probing <==> exists k :: k in t.probes && t.probes[k].cluster == cluster)
            && (forall j, k :: j in t.probes && k in t.probes && t.probes[j].cluster == t.probes[k].cluster ==> j == k)
  {
    IdleIsInv(s);
    RunKeeps(s, run);
  }

  /** Every summary that a poll returned has the cluster and the status of the row it read, and
      says on or off line only if that status is ready. */
  lemma {:induction false} AnswersAreRight(s: State, run: seq<Action>, i: nat)
    requires Idle(s) && CanRun(s, run) && i < |After(s, run).answers|
    ensures Right(After(s, run).answers[i].poll, After(s, run).answers[i].summary)
  {
    IdleIsInv(s);
    RunKeeps(s, run);
  }

  lemma StartStep(s: State, p: nat, t: nat)
    requires Inv(s) && Enabled(s, Start(p, t))
    ensures var c := s.polls[p].cluster;
            var u := Step(s, Start(p, t));
            && (t in u.tasks <==> forall k :: k in s.tasks ==> s.tasks[k].cluster != c)
            && (t in u.tasks ==> u.tasks[t] == Refresh(c, s.polls[p].status))
            && c in u.inflight
  {
    var c := s.polls[p].cluster;
    if c in s.inflight {
      var k :| k in s.tasks && s.tasks[k].cluster == c;
    }
  }

  /** After any run: a poll that gets to start a refresh starts one exactly if none is unfinished
      for its cluster. */
  lemma {:induction false} StartsUnlessRunning(s: State, run: seq<Action>, p: nat, t: nat)
    requires Idle(s) && CanRun(s, run) && Enabled(After(s, run), Start(p, t))
    ensures var v := After(s, run);
            var u := Step(v, Start(p, t));
            && (t in u.tasks <==> forall k :: k in v.tasks ==> v.tasks[k].cluster != v.polls[p].cluster)
            && (t in u.tasks ==> u.tasks[t] == Refresh(v.polls[p].cluster, v.polls[p].status))
  {
    IdleIsInv(s);
    RunKeeps(s, run);
    StartStep(After(s, run), p, t);
  }

  /** After any run: while a refresh of its cluster is unfinished a poll starts none, and right after
      that one has finished it does. */
  lemma {:induction false} FinishedRefreshAllowsTheNext(s: State, run: seq<Action>, done: nat, p: nat, t: nat)
    requires Idle(s) && CanRun(s, run) && Enabled(After(s, run), Start(p, t)) && done in After(s, run).tasks
    requires After(s, run).polls[p].cluster == After(s, run).tasks[done].cluster
    ensures var v := After(s, run);
            && t !in Step(v, Start(p, t)).tasks
            && var u := Step(v, Finish(done)); Enabled(u, Start(p, t)) && t in Step(u, Start(p, t)).tasks
  {
    hide After, CanRun;
    var v := After(s, run);
    IdleIsInv(s);
    RunKeeps(s, run);
    StepKeeps(v, Finish(done));
    StartStep(v, p, t);
    StartStep(Step(v, Finish(done)), p, t);
  }

  /** A task that is overtaken by a change of the row stores the old status; the next poll still
      answers with the new one, and has a refresh started for it. */
  lemma {:induction false} OvertakenRefreshIsRepaired(s: State, t: nat, online: bool, p: nat, k: nat)
    requires Inv(s) && t in s.tasks && s.tasks[t].cluster in s.rows && p !in s.polls && k !in s.tasks
    requires s.rows[s.tasks[t].cluster] != s.tasks[t].status
    ensures var c := s.tasks[t].cluster;
            var run := [Remember(t, online)] + ([Finish(t)] + ([Begin(p, c)] + ([LookLive(p)] + ([Start(p, k)] + []))));
            && CanRun(s, run)
            && var u := After(s, run);
               && k in u.tasks && u.tasks[k] == Refresh(c, s.rows[c])
               && |u.answers| == |s.answers| + 1 && u.answers[|s.answers|].summary.status == s.rows[c]
               && u.answers[|s.answers|].summary.availability
                  == if s.rows[c] == "ready" && c in s.availability && s.now <= s.availability[c].at + 120
                     then s.availability[c].value else Unknown
  {
    hide CanRun, After;
    var c := s.tasks[t].cluster;
    var done := Overtaken(s, t, online);
    var asked := Step(done, Begin(p, c));
    var looked := Step(asked, LookLive(p));
    AskedAfter(done, p, c);
    var u := Step(looked, Start(p, k));
    StartStep(looked, p, k);
    NothingToRun(u);
    RunOne(looked, Start(p, k), []);
    RunOne(asked, LookLive(p), [Start(p, k)] + []);
    RunOne(done, Begin(p, c), [LookLive(p)] + ([Start(p, k)] + []));
    RunOne(Step(s, Remember(t, online)), Finish(t), [Begin(p, c)] + ([LookLive(p)] + ([Start(p, k)] + [])));
    RunOne(s, Remember(t, online), [Finish(t)] + ([Begin(p, c)] + ([LookLive(p)] + ([Start(p, k)] + []))));
  }

  lemma NothingToRun(s: State)
    ensures CanRun(s, []) && After(s, []) == s
  {
  }

  /** The state after the overtaken task: its summary is cached and fresh, its cluster is free. */
  lemma Overtaken(s: State, t: nat, online: bool) returns (u: State)
    requires Inv(s) && t in s.tasks
    ensures Enabled(s, Remember(t, online)) && Enabled(Step(s, Remember(t, online)), Finish(t))
    ensures u == Step(Step(s, Remember(t, online)), Finish(t)) && Inv(u)
    ensures u.rows == s.rows && u.polls == s.polls && u.answers == s.answers && u.tasks == s.tasks - {t}
    ensures u.now == s.now && u.availability == s.availability
    ensures s.tasks[t].cluster !in u.inflight
    ensures var c := s.tasks[t].cluster;
            && c in u.cache && Within(u.now, u.cache[c], LIVE_TTL) && u.cache[c].value.status == s.tasks[t].status
  {
    hide Inv;
    StepKeeps(s, Remember(t, online));
    StepKeeps(Step(s, Remember(t, online)), Finish(t));
    u := Step(Step(s, Remember(t, online)), Finish(t));
  }

  lemma AskedAfter(s: State, p: nat, c: nat)
    requires Inv(s) && c in s.rows && p !in s.polls && c !in s.inflight
    requires c in s.cache && Within(s.now, s.cache[c], LIVE_TTL) && s.cache[c].value.status != s.rows[c]
    ensures Enabled(s, Begin(p, c)) && Enabled(Step(s, Begin(p, c)), LookLive(p))
    ensures var u := Step(Step(s, Begin(p, c)), LookLive(p));
            && Inv(u) && p in u.polls && u.polls[p].cluster == c && u.polls[p].status == s.rows[c]
            && u.polls[p].stage.Answering? && u.polls[p].stage.summary.status == s.rows[c]
            && u.polls[p].stage.summary.availability
               == (if s.rows[c] == "ready" && c in s.availability && s.now <= s.availability[c].at + 120
                   then s.availability[c].value else Unknown)
            && u.tasks == s.tasks && u.inflight == s.inflight && u.answers == s.answers
  {
    hide Inv;
    StepKeeps(s, Begin(p, c));
    StepKeeps(Step(s, Begin(p, c)), LookLive(p));
  }

  lemma RunOne(s: State, a: Action, rest: seq<Action>)
    requires Enabled(s, a) && CanRun(Step(s, a), rest)
    ensures CanRun(s, [a] + rest) && After(s, [a] + rest) == After(Step(s, a), rest)
  {
    assert ([a] + rest)[1..] == rest;
  }

  // ----- what the answers say

  /** No task of the run stores a summary of the cluster, and no probe a result for it. */
  predicate NoneStored(s: State, run: seq<Action>, c: nat)
    requires CanRun(s, run)
    decreases |run|
  {
    run == []
    || (!(run[0].Remember? && s.tasks[run[0].t].cluster == c)
        && !(run[0].StoreProbe? && s.probes[run[0].t].cluster == c)
        && NoneStored(Step(s, run[0]), run[1..], c))
  }

  /** The same is stored for the cluster, and time has not gone back. */
  predicate Stays(s: State, t: State, c: nat) {
    && s.now <= t.now
    && (c in t.cache <==> c in s.cache) && (c in s.cache ==> t.cache[c] == s.cache[c])
    && (c in t.availability <==> c in s.availability)
    && (c in s.availability ==> t.availability[c] == s.availability[c])
  }

  /** What was stored stays until something else is stored. */
  lemma {:induction false} StoredStays(s: State, run: seq<Action>, c: nat)
    requires CanRun(s, run) && NoneStored(s, run, c)
    ensures Stays(s, After(s, run), c)
    decreases |run|
  {
    hide Step, Enabled;
    if run != [] {
      StoredStep(s, run[0], c);
      StoredStays(Step(s, run[0]), run[1..], c);
    }
  }

  lemma StoredStep(s: State, a: Action, c: nat)
    requires Enabled(s, a)
    requires !(a.Remember? && s.tasks[a.t].cluster == c) && !(a.StoreProbe? && s.probes[a.t].cluster == c)
    ensures Stays(s, Step(s, a), c)
  {
    hide Looked, SpawnLive, SpawnProbe, Answered, At, Gathered, CachedOr, Stays;
    match a
    case LookLive(p) => LookedStays(s, p, c);
    case Start(p, t) => StartStays(s, p, t, c);
    case LookAny(p) =>
      if p in s.polls && s.polls[p].cluster in s.cache {
        MoveStays(s, s, p, s.cache[s.polls[p].cluster].value, c);
      } else {
        MoveStays(s, s, p, Summary(0, "", Unknown), c);
      }
    case Measure(p) =>
      var poll := s.polls[p];
      MoveStays(s, s, p, Summary(poll.cluster, poll.status, CachedOr(s, poll.cluster, poll.status)), c);
    case StartProbe(cluster, status, t) => ProbeStays(s, Refresh(cluster, status), t, c);
    case Remember(t, online) => RememberStays(s, s.tasks[t].cluster, Cached(s.now, Gathered(s.tasks[t], online)), c);
    case StoreProbe(t, result) => StoreStays(s, s.probes[t].cluster, Cached(s.now, result), c);
    case _ => PlainStays(s, a, c);
  }

  lemma PlainStays(s: State, a: Action, c: nat)
    requires Enabled(s, a) && (a.Tick? || a.SetStatus? || a.Begin? || a.Finish? || a.FinishProbe?)
    ensures Stays(s, Step(s, a), c)
  {
  }

  lemma RememberStays(s: State, cluster: nat, x: Cached<Summary>, c: nat)
    requires cluster != c
    ensures Stays(s, s.(cache := s.cache[cluster := x]), c)
  {
  }

  lemma StoreStays(s: State, cluster: nat, x: Cached<Availability>, c: nat)
    requires cluster != c
    ensures Stays(s, s.(availability := s.availability[cluster := x]), c)
  {
  }

  lemma MoveStays(s: State, u: State, p: nat, summary: Summary, c: nat)
    requires Stays(s, u, c) && p in u.polls
    ensures Stays(s, Answered(u, p, summary), c)
    ensures forall stage :: Stays(s, At(u, p, stage), c)
  {
  }

  lemma LookedStays(s: State, p: nat, c: nat)
    requires p in s.polls
    ensures Stays(s, Looked(s, p), c)
  {
    hide CachedOr;
  }

  lemma StartStays(s: State, p: nat, t: nat, c: nat)
    requires Enabled(s, Start(p, t))
    ensures Stays(s, Step(s, Start(p, t)), c)
  {
  }

  lemma ProbeStays(s: State, r: Refresh, t: nat, c: nat)
    ensures Stays(s, SpawnProbe(s, r, t), c)
  {
  }

  /** After a task of a ready row has stored its result, whatever else goes on, a poll that read the
      same status answers online exactly if the cluster was reached and offline if not, for
      20 seconds; later it starts a refresh first. */
  lemma {:induction false} ReachedMeansOnline(s: State, t: nat, online: bool, run: seq<Action>, p: nat)
    requires t in s.tasks && s.tasks[t].status == "ready"
    requires var stored := Step(s, Remember(t, online));
             && CanRun(stored, run) && NoneStored(stored, run, s.tasks[t].cluster)
             && p in After(stored, run).polls
             && After(stored, run).polls[p] == Poll(s.tasks[t].cluster, "ready", Reading)
    ensures var u := After(Step(s, Remember(t, online)), run);
            var next := Step(u, LookLive(p));
            if u.now <= s.now + 20 then
              next.answers == u.answers + [Answer(u.polls[p], Summary(s.tasks[t].cluster, "ready",
                                                                      if online then Online else Offline))]
            else next.answers == u.answers && p in next.polls && next.polls[p].stage.Starting?
  {
    hide CanRun, After, NoneStored;
    var stored := Step(s, Remember(t, online));
    StoredStays(stored, run, s.tasks[t].cluster);
    assert stored.cache[s.tasks[t].cluster].at == s.now;
  }

  /** No summary that a poll of the cluster would answer with. */
  predicate NoSummary(s: State, c: nat)
    requires c in s.rows
  {
    c !in s.cache || (s.cache[c].at + 20 < s.now && s.cache[c].value.status != s.rows[c])
  }

  /** All steps of one poll that finds no summary. */
  function WholePoll(p: nat, c: nat, k: nat): seq<Action> {
    [Begin(p, c)] + ([LookLive(p)] + ([Start(p, k)] + ([LookAny(p)] + ([Measure(p)] + []))))
  }

  lemma PollFromDatabase(s: State, c: nat, p: nat, k: nat)
    requires c in s.rows && p !in s.polls && k !in s.tasks && NoSummary(s, c)
    ensures CanRun(s, WholePoll(p, c, k))
    ensures var t := After(s, WholePoll(p, c, k));
            |t.answers| == |s.answers| + 1
            && t.answers[|s.answers|].summary
               == Summary(c, s.rows[c],
                          if s.rows[c] == "ready" && c in s.availability && s.now <= s.availability[c].at + 120
                          then s.availability[c].value else Unknown)
  {
    hide CanRun, After;
    var a := Step(s, Begin(p, c));
    assert Enabled(a, LookLive(p));
    var b := Step(a, LookLive(p));
    assert b == At(a, p, Starting);
    var d := Step(b, Start(p, k));
    assert d.cache == s.cache && d.availability == s.availability && d.now == s.now && d.answers == s.answers;
    assert p in d.polls && d.polls[p] == Poll(c, s.rows[c], Falling);
    var e := Step(d, LookAny(p));
    assert e == At(d, p, Measuring);
    var f := Step(e, Measure(p));
    NothingToRun(f);
    RunOne(e, Measure(p), []);
    RunOne(d, LookAny(p), [Measure(p)] + []);
    RunOne(b, Start(p, k), [LookAny(p)] + ([Measure(p)] + []));
    RunOne(a, LookLive(p), [Start(p, k)] + ([LookAny(p)] + ([Measure(p)] + [])));
    RunOne(s, Begin(p, c), [LookLive(p)] + ([Start(p, k)] + ([LookAny(p)] + ([Measure(p)] + []))));
  }

  /** A summary that is too old is still the answer if its status is that of the row, while a refresh
      for it is under way. */
  lemma {:induction false} OldSummaryMeanwhile(s: State, c: nat, p: nat, k: nat)
    requires Inv(s) && c in s.rows && p !in s.polls && k !in s.tasks && c in s.cache
    requires s.cache[c].at + 20 < s.now && s.cache[c].value.status == s.rows[c]
    ensures var run := [Begin(p, c)] + ([LookLive(p)] + ([Start(p, k)] + ([LookAny(p)] + [])));
            && CanRun(s, run)
            && var t := After(s, run);
               && t.answers == s.answers + [Answer(Poll(c, s.rows[c], Falling), s.cache[c].value)]
               && exists j :: j in t.tasks && t.tasks[j].cluster == c
  {
    hide CanRun, After, Inv;
    var a := Step(s, Begin(p, c));
    StepKeeps(s, Begin(p, c));
    assert Enabled(a, LookLive(p));
    var b := Step(a, LookLive(p));
    StepKeeps(a, LookLive(p));
    assert b == At(a, p, Starting);
    var d := Step(b, Start(p, k));
    StepKeeps(b, Start(p, k));
    StartStep(b, p, k);
    assert d.cache == s.cache && d.answers == s.answers;
    assert p in d.polls && d.polls[p] == Poll(c, s.rows[c], Falling);
    var e := Step(d, LookAny(p));
    InflightHasTask(d, c);
    NothingToRun(e);
    RunOne(d, LookAny(p), []);
    RunOne(b, Start(p, k), [LookAny(p)] + []);
    RunOne(a, LookLive(p), [Start(p, k)] + ([LookAny(p)] + []));
    RunOne(s, Begin(p, c), [LookLive(p)] + ([Start(p, k)] + ([LookAny(p)] + [])));
  }

  lemma InflightHasTask(s: State, c: nat)
    requires Inv(s) && c in s.inflight
    ensures exists j :: j in s.tasks && s.tasks[j].cluster == c
  {
  }

  /** A poll that finds no summary answers with the result that the last probe stored, if the row is
      ready and that was at most 120 seconds ago, and else with unknown. */
  lemma {:induction false} LastProbeIsTheAnswer(s: State, q: nat, result: Availability, run: seq<Action>, p: nat,
                                                k: nat)
    requires q in s.probes
    requires var c, stored := s.probes[q].cluster, Step(s, StoreProbe(q, result));
             && CanRun(stored, run) && NoneStored(stored, run, c)
             && var u := After(stored, run); c in u.rows && p !in u.polls && k !in u.tasks && NoSummary(u, c)
    ensures var c, u := s.probes[q].cluster, After(Step(s, StoreProbe(q, result)), run);
            && CanRun(u, WholePoll(p, c, k))
            && var t := After(u, WholePoll(p, c, k));
               |t.answers| == |u.answers| + 1
               && t.answers[|u.answers|].summary
                  == Summary(c, u.rows[c], if u.rows[c] == "ready" && u.now <= s.now + 120 then result else Unknown)
  {
    hide CanRun, After, NoneStored, NoSummary, WholePoll;
    var c, stored := s.probes[q].cluster, Step(s, StoreProbe(q, result));
    StoredStays(stored, run, c);
    PollFromDatabase(After(stored, run), c, p, k);
  }

  /** As long as no probe has stored a result, such a poll answers with unknown. */
  lemma {:induction false} UnprobedIsUnknown(s: State, c: nat, p: nat, k: nat)
    requires c in s.rows && p !in s.polls && k !in s.tasks && NoSummary(s, c) && c !in s.availability
    ensures CanRun(s, WholePoll(p, c, k))
    ensures var t := After(s, WholePoll(p, c, k));
            |t.answers| == |s.answers| + 1
            && t.answers[|s.answers|].summary == Summary(c, s.rows[c], Unknown)
  {
    PollFromDatabase(s, c, p, k);
  }

  /** After any run, a probe is started exactly for a ready row of a cluster without an unfinished
      probe whose last result, if any, is more than 15 seconds old. */
  lemma {:induction false} ProbesWhenStale(s: State, run: seq<Action>, c: nat, status: string, t: nat)
    requires Idle(s) && CanRun(s, run) && t !in After(s, run).probes
    ensures t in Step(After(s, run), StartProbe(c, status, t)).probes
       <==> status == "ready" && (forall k :: k in After(s, run).probes ==> After(s, run).probes[k].cluster != c)
            && (c in After(s, run).availability ==> After(s, run).availability[c].at + 15 < After(s, run).now)
  {
    OneRefreshPerCluster(s, run, c);
  }
}
