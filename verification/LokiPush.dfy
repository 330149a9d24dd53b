/** The Loki pusher (`crates/pertisk-api/src/loki.rs`): rounds that collect new log lines per
    service, post them in one batch, and keep them for the next round if the post fails. */
module LokiPush {
  import opened Text
  import opened LogTail

  const FILES: seq<string> := ["pertiskd", "containerd", "kubelet"]
  const KERNEL: string := "dmesg"

  /** The services in the order in which an ordered map lists them. */
  const SERVICES: seq<string> := ["containerd", "dmesg", "kubelet", "pertiskd"]

  const MAX_BATCH: nat := 200
  const MAX_LINE: nat := 8192
  const FIRST_BACKOFF: nat := 5
  const MAX_BACKOFF: nat := 60

  type Pending = map<string, seq<string>>

  // ----- queues

  function Queue(pending: Pending, service: string): seq<string> {
    if service in pending then pending[service] else []
  }

  /** `stamp_line` without its time stamp. */
  function Cut(line: string): string { if |line| > MAX_LINE then line[..MAX_LINE] else line }

  function Cuts(lines: seq<string>): (r: seq<string>)
    ensures |r| == |lines| && forall i :: 0 <= i < |r| ==> r[i] == Cut(lines[i])
    ensures Shortened(lines, r)
  {
    seq(|lines|, i requires 0 <= i < |lines| => Cut(lines[i]))
  }

  /** The values are the lines, each cut after 8192 characters. */
  predicate Shortened(lines: seq<string>, values: seq<string>) {
    && |values| == |lines|
    && forall i :: 0 <= i < |lines| ==> values[i] == if |lines[i]| <= 8192 then lines[i] else lines[i][..8192]
  }

  function Enqueue(pending: Pending, service: string, lines: seq<string>): Pending {
    if lines == [] then pending else pending[service := Queue(pending, service) + Cuts(lines)]
  }

  method EnqueueLines(pending: Pending, service: string, lines: seq<string>) returns (r: Pending)
    ensures r == Enqueue(pending, service, lines)
    ensures exists values :: Shortened(lines, values) && Queue(r, service) == Queue(pending, service) + values
    ensures forall other :: other != service ==> Queue(r, other) == Queue(pending, other)
  {
    r := pending;
    for k := 0 to |lines|
      invariant r == Enqueue(pending, service, lines[..k])
    {
      EnqueueOne(pending, service, lines[..k], lines[k]);
      assert lines[..k + 1] == lines[..k] + [lines[k]];
      r := r[service := Queue(r, service) + [Cut(lines[k])]];
    }
    assert lines[..|lines|] == lines;
    forall other ensures Queue(r, other) == Queue(pending, other) + if other == service then Cuts(lines) else [] {
      QueueOfEnqueue(pending, service, lines, other);
    }
    NothingAfterQueues(pending);
  }

  lemma NothingAfterQueues(pending: Pending)
    ensures forall s :: Queue(pending, s) + [] == Queue(pending, s)
  {
  }

  lemma EnqueueOne(pending: Pending, service: string, lines: seq<string>, line: string)
    ensures var r := Enqueue(pending, service, lines);
            r[service := Queue(r, service) + [Cut(line)]] == Enqueue(pending, service, lines + [line])
  {
    var queue := Queue(pending, service);
    assert Cuts(lines + [line]) == Cuts(lines) + [Cut(line)];
    if lines == [] {
      assert Cuts(lines) + [Cut(line)] == [Cut(line)];
    } else {
      Regroup(queue, Cuts(lines), [Cut(line)]);
      var r := pending[service := queue + Cuts(lines)];
      assert r[service := queue + Cuts(lines) + [Cut(line)]] == pending[service := queue + Cuts(lines) + [Cut(line)]];
    }
  }

  // ----- the body of a post

  datatype Settings = Settings(hostname: string, cluster: string, extraLabels: map<string, string>)

  datatype Stream = Stream(labels: map<string, string>, values: seq<string>)

  function Labels(settings: Settings, service: string): map<string, string> {
    map["job" := "pertisk", "service" := service, "hostname" := settings.hostname, "cluster" := settings.cluster]
    + settings.extraLabels
  }

  function StreamsOf(settings: Settings, pending: Pending, services: seq<string>): seq<Stream> {
    if services == [] then []
    else
      (if Queue(pending, services[0]) == [] then []
       else [Stream(Labels(settings, services[0]), Queue(pending, services[0]))])
      + StreamsOf(settings, pending, services[1..])
  }

  function EncodePush(settings: Settings, pending: Pending): seq<Stream> {
    StreamsOf(settings, pending, SERVICES)
  }

  function Total(pending: Pending, services: seq<string>): nat {
    if services == [] then 0 else |Queue(pending, services[0])| + Total(pending, services[1..])
  }

  /** What a reader of the streams gets for a service. */
  function ValuesOf(streams: seq<Stream>, service: string): seq<string> {
    if streams == [] then []
    else
      (if "service" in streams[0].labels && streams[0].labels["service"] == service then streams[0].values else [])
      + ValuesOf(streams[1..], service)
  }

  // ----- one round

  datatype Loki = Loki(
    tails: seq<Tail>, pending: Pending, kernelLast: seq<string>, primed: bool, backoff: nat)

  /** What a round meets: the log files, the kernel log if it could be read, whether the flush
      interval is over, and whether a post would be accepted. */
  datatype Round = Round(polls: seq<Poll>, kernel: Option<seq<string>>, elapsed: bool, accepted: bool)

  function FilesEnqueued(pending: Pending, tails: seq<Tail>, polls: seq<Poll>, k: nat): Pending
    requires k <= |FILES| == |tails| == |polls|
  {
    if k == 0 then pending
    else Enqueue(FilesEnqueued(pending, tails, polls, k - 1), FILES[k - 1],
                 NonEmpty(Follow(tails[k - 1], polls[k - 1]).lines))
  }

  function KernelEnqueued(l: Loki, pending: Pending, kernel: Option<seq<string>>): Pending {
    if kernel.Some? && l.primed then Enqueue(pending, KERNEL, NewSince(l.kernelLast, kernel.value)) else pending
  }

  /** The queues when the round decides whether to post. */
  function Collected(l: Loki, r: Round): Pending
    requires |FILES| == |l.tails| == |r.polls|
  {
    KernelEnqueued(l, FilesEnqueued(l.pending, l.tails, r.polls, |FILES|), r.kernel)
  }

  predicate Posts(pending: Pending, elapsed: bool) {
    (elapsed || Total(pending, SERVICES) >= MAX_BATCH) && Total(pending, SERVICES) > 0
  }

  function After(l: Loki, r: Round): Loki
    requires |FILES| == |l.tails| == |r.polls|
  {
    var pending := Collected(l, r);
    Loki(
      seq(|FILES|, i requires 0 <= i < |FILES| => Follow(l.tails[i], r.polls[i]).tail),
      if Posts(pending, r.elapsed) && r.accepted then map[] else pending,
      if r.kernel.Some? then r.kernel.value else l.kernelLast,
      l.primed || r.kernel.Some?,
      if !Posts(pending, r.elapsed) then l.backoff
      else if r.accepted then FIRST_BACKOFF
      else if l.backoff * 2 <= MAX_BACKOFF then l.backoff * 2 else MAX_BACKOFF)
  }

  /** The body of the round's post, if there was one and it was accepted. */
  function Delivered(settings: Settings, l: Loki, r: Round): seq<Stream>
    requires |FILES| == |l.tails| == |r.polls|
  {
    var pending := Collected(l, r);
    if Posts(pending, r.elapsed) && r.accepted then EncodePush(settings, pending) else []
  }

  class Pusher {
    const settings: Settings
    const files: seq<FileTail>
    var pending: Pending
    var kernelLast: seq<string>
    var primed: bool
    var backoff: nat

    /** A pusher starts at the end of every file. */
    constructor (settings: Settings, lengths: seq<nat>)
      requires |lengths| == |FILES|
      ensures Valid() && fresh(files) && this.settings == settings
      ensures |State().tails| == |FILES| && forall i :: 0 <= i < |FILES| ==> State().tails[i] == Tail(lengths[i], "")
      ensures State().pending == map[] && State().kernelLast == [] && !State().primed
      ensures State().backoff == FIRST_BACKOFF
    {
      var a := new FileTail(lengths[0]);
      var b := new FileTail(lengths[1]);
      var c := new FileTail(lengths[2]);
      this.settings := settings;
      files := [a, b, c];
      pending, kernelLast, primed, backoff := map[], [], false, FIRST_BACKOFF;
    }

    ghost predicate Valid() {
      |files| == |FILES| && forall i, j :: 0 <= i < j < |files| ==> files[i] != files[j]
    }

    function State(): Loki
      reads this, files
    {
      Loki(seq(|files|, i requires 0 <= i < |files| reads this, files => files[i].State()),
        pending, kernelLast, primed, backoff)
    }

    /** One turn of `run_loop`. */
    method Turn(r: Round) returns (delivered: seq<Stream>)
      requires Valid() && |r.polls| == |files|
      modifies this, files
      ensures State() == After(old(State()), r)
      ensures delivered == Delivered(settings, old(State()), r)
    {
      hide FilesEnqueued, Total, NewSince, Enqueue, Follow, EncodePush;
      ghost var l := State();
      CollectFiles(r.polls);
      if r.kernel.Some? {
        if !primed {
          primed := true;
        } else {
          pending := EnqueueLines(pending, KERNEL, NewSince(kernelLast, r.kernel.value));
        }
        kernelLast := r.kernel.value;
      }
      assert pending == Collected(l, r);
      delivered := [];
      var n := Total(pending, SERVICES);
      var due := r.elapsed || n >= MAX_BATCH;
      if due && n > 0 {
        if r.accepted {
          delivered := EncodePush(settings, pending);
          pending := map[];
          backoff := FIRST_BACKOFF;
        } else {
          backoff := if backoff * 2 <= MAX_BACKOFF then backoff * 2 else MAX_BACKOFF;
        }
      }
    }

    method CollectFiles(polls: seq<Poll>)
      requires Valid() && |polls| == |files|
      modifies this`pending, files
      ensures pending == FilesEnqueued(old(pending), old(State()).tails, polls, |FILES|)
      ensures forall i :: 0 <= i < |files| ==> files[i].State() == Follow(old(files[i].State()), polls[i]).tail
    {
      hide Follow, NonEmpty, Enqueue;
      ghost var tails := State().tails;
      for k := 0 to |files|
        invariant pending == FilesEnqueued(old(pending), tails, polls, k)
        invariant forall i :: 0 <= i < k ==> files[i].State() == Follow(tails[i], polls[i]).tail
        invariant forall i :: k <= i < |files| ==> files[i].State() == tails[i]
      {
        var lines := files[k].NewLines(polls[k], false);
        pending := EnqueueLines(pending, FILES[k], lines);
      }
    }
  }

  // ----- what is enqueued

  lemma QueueOfEnqueue(pending: Pending, service: string, lines: seq<string>, other: string)
    ensures Queue(Enqueue(pending, service, lines), other)
         == Queue(pending, other) + if other == service then Cuts(lines) else []
    ensures Enqueue(pending, service, lines).Keys <= pending.Keys + {service}
  {
    if lines == [] {
      assert Queue(pending, other) + Cuts(lines) == Queue(pending, other);
    }
    assert Queue(pending, other) + [] == Queue(pending, other);
  }

  /** The lines a round adds to a service. */
  function NewLines(l: Loki, r: Round, service: string): seq<string>
    requires |FILES| == |l.tails| == |r.polls|
  {
    if service == KERNEL then
      if r.kernel.Some? && l.primed then Cuts(NewSince(l.kernelLast, r.kernel.value)) else []
    else if service == FILES[0] then Cuts(NonEmpty(Follow(l.tails[0], r.polls[0]).lines))
    else if service == FILES[1] then Cuts(NonEmpty(Follow(l.tails[1], r.polls[1]).lines))
    else if service == FILES[2] then Cuts(NonEmpty(Follow(l.tails[2], r.polls[2]).lines))
    else []
  }

  lemma ServicesDiffer()
    ensures FILES[0] != FILES[1] && FILES[0] != FILES[2] && FILES[1] != FILES[2]
    ensures KERNEL != FILES[0] && KERNEL != FILES[1] && KERNEL != FILES[2]
    ensures SERVICES == [FILES[1], KERNEL, FILES[2], FILES[0]]
  {
    assert FILES[0][0] == 'p' && FILES[1][0] == 'c' && FILES[2][0] == 'k';
  }

  lemma CollectedQueues(l: Loki, r: Round, service: string)
    requires |FILES| == |l.tails| == |r.polls|
    ensures Queue(Collected(l, r), service) == Queue(l.pending, service) + NewLines(l, r, service)
  {
    hide Follow, NonEmpty, Enqueue, Queue, Cuts, NewSince;
    var a := FilesEnqueued(l.pending, l.tails, r.polls, 1);
    var b := FilesEnqueued(l.pending, l.tails, r.polls, 2);
    var c := FilesEnqueued(l.pending, l.tails, r.polls, 3);
    assert FilesEnqueued(l.pending, l.tails, r.polls, 0) == l.pending;
    assert a == Enqueue(l.pending, FILES[0], NonEmpty(Follow(l.tails[0], r.polls[0]).lines));
    assert b == Enqueue(a, FILES[1], NonEmpty(Follow(l.tails[1], r.polls[1]).lines));
    assert c == Enqueue(b, FILES[2], NonEmpty(Follow(l.tails[2], r.polls[2]).lines));
    ServicesDiffer();
    QueueOfEnqueue(l.pending, FILES[0], NonEmpty(Follow(l.tails[0], r.polls[0]).lines), service);
    QueueOfEnqueue(a, FILES[1], NonEmpty(Follow(l.tails[1], r.polls[1]).lines), service);
    QueueOfEnqueue(b, FILES[2], NonEmpty(Follow(l.tails[2], r.polls[2]).lines), service);
    NothingAfter(Queue(l.pending, service));
    NothingAfter(Queue(a, service));
    NothingAfter(Queue(b, service));
    NothingAfter(Queue(c, service));
    if r.kernel.Some? && l.primed {
      QueueOfEnqueue(c, KERNEL, NewSince(l.kernelLast, r.kernel.value), service);
    }
  }

  // ----- what is delivered

  lemma {:induction false} ValuesAppend(a: seq<Stream>, b: seq<Stream>, service: string)
    ensures ValuesOf(a + b, service) == ValuesOf(a, service) + ValuesOf(b, service)
  {
    if a == [] {
      assert a + b == b;
      NothingBefore(ValuesOf(b, service));
    } else {
      assert (a + b)[1..] == a[1..] + b;
      ValuesAppend(a[1..], b, service);
      var first := if "service" in a[0].labels && a[0].labels["service"] == service then a[0].values else [];
      Regroup(first, ValuesOf(a[1..], service), ValuesOf(b, service));
    }
  }

  function Concat(pending: Pending, services: seq<string>): seq<string> {
    if services == [] then [] else Queue(pending, services[0]) + Concat(pending, services[1..])
  }

  /** How the streams of one body read: by service, unless the extra labels hold a service. */
  lemma {:induction false} StreamValues(settings: Settings, pending: Pending, services: seq<string>, service: string)
    requires forall i, j :: 0 <= i < j < |services| ==> services[i] != services[j]
    ensures var values := ValuesOf(StreamsOf(settings, pending, services), service);
            if "service" !in settings.extraLabels
            then values == if service in services then Queue(pending, service) else []
            else values == if service == settings.extraLabels["service"] then Concat(pending, services) else []
  {
    hide Queue;
    if services != [] {
      var first, rest := services[0], services[1..];
      StreamValues(settings, pending, rest, service);
      var queue := Queue(pending, first);
      NothingBefore(ValuesOf(StreamsOf(settings, pending, rest), service));
      NothingAfter(queue);
      OneStream(settings, queue, first, service, StreamsOf(settings, pending, rest));
      assert services == [first] + rest;
      NothingBefore(StreamsOf(settings, pending, rest));
      NothingBefore(Concat(pending, rest));
    }
  }

  lemma OneStream(settings: Settings, queue: seq<string>, first: string, service: string, rest: seq<Stream>)
    ensures ValuesOf([Stream(Labels(settings, first), queue)] + rest, service)
         == (if (if "service" in settings.extraLabels then settings.extraLabels["service"] else first) == service
             then queue else []) + ValuesOf(rest, service)
  {
    var streams := [Stream(Labels(settings, first), queue)] + rest;
    assert streams[1..] == rest;
  }

  lemma ServicesDistinct()
    ensures forall i, j :: 0 <= i < j < |SERVICES| ==> SERVICES[i] != SERVICES[j]
    ensures forall s :: s in SERVICES <==> s == KERNEL || s in FILES
  {
    ServicesDiffer();
    assert FILES == [FILES[0], FILES[1], FILES[2]];
  }

  /** A body tells the services apart exactly when no extra label is called `service`. */
  lemma {:induction false} BodyTellsServices(settings: Settings)
    ensures "service" !in settings.extraLabels
       <==> forall pending: Pending, service ::
              service in SERVICES ==> ValuesOf(EncodePush(settings, pending), service) == Queue(pending, service)
  {
    ServicesDistinct();
    if "service" in settings.extraLabels {
      var other := if settings.extraLabels["service"] == SERVICES[0] then SERVICES[1] else SERVICES[0];
      var pending: Pending := map[other := ["x"]];
      StreamValues(settings, pending, SERVICES, other);
      assert Queue(pending, other) == ["x"];
      assert ValuesOf(EncodePush(settings, pending), other) != Queue(pending, other);
    } else {
      forall pending: Pending, service | service in SERVICES
        ensures ValuesOf(EncodePush(settings, pending), service) == Queue(pending, service)
      {
        StreamValues(settings, pending, SERVICES, service);
      }
    }
  }

  /** What every stream of a body says: the queue of one service, under five kinds of labels of
      which the extra ones win. */
  predicate Labelled(settings: Settings, pending: Pending, stream: Stream, service: string) {
    && stream.values == Queue(pending, service) != []
    && stream.labels.Keys == {"job", "service", "hostname", "cluster"} + settings.extraLabels.Keys
    && forall k :: k in stream.labels ==>
         stream.labels[k] == if k in settings.extraLabels then settings.extraLabels[k]
                             else if k == "job" then "pertisk"
                             else if k == "service" then service
                             else if k == "hostname" then settings.hostname
                             else settings.cluster
  }

  lemma {:induction false} LabelledStreams(settings: Settings, pending: Pending, services: seq<string>, i: nat)
    requires i < |StreamsOf(settings, pending, services)|
    ensures exists s :: s in services && Labelled(settings, pending, StreamsOf(settings, pending, services)[i], s)
  {
    hide Labelled, Labels, Queue;
    var first, streams := services[0], StreamsOf(settings, pending, services);
    assert services == [first] + services[1..];
    if Queue(pending, first) != [] && i == 0 {
      LabelsAreRight(settings, pending, first);
      assert first in services && Labelled(settings, pending, streams[i], first);
    } else {
      var k := if Queue(pending, first) == [] then i else i - 1;
      var rest := StreamsOf(settings, pending, services[1..]);
      LabelledStreams(settings, pending, services[1..], k);
      var s :| s in services[1..] && Labelled(settings, pending, rest[k], s);
      assert streams[i] == rest[k] && s in services;
    }
  }

  lemma LabelsAreRight(settings: Settings, pending: Pending, service: string)
    requires Queue(pending, service) != []
    ensures Labelled(settings, pending, Stream(Labels(settings, service), Queue(pending, service)), service)
  {
    hide Queue;
    LabelNames();
  }

  lemma LabelNames()
    ensures "job" != "service" && "job" != "hostname" && "job" != "cluster" && "service" != "hostname"
    ensures "service" != "cluster" && "hostname" != "cluster"
  {
    assert "job"[0] == 'j' && "service"[0] == 's' && "hostname"[0] == 'h' && "cluster"[0] == 'c';
  }

  /** Every stream of a body holds the waiting lines of a service, labelled for it. */
  lemma {:induction false} BodyIsLabelled(settings: Settings, pending: Pending, i: nat)
    requires i < |EncodePush(settings, pending)|
    ensures exists s :: s in ["containerd", "dmesg", "kubelet", "pertiskd"]
                        && Labelled(settings, pending, EncodePush(settings, pending)[i], s)
  {
    hide Labelled, StreamsOf;
    LabelledStreams(settings, pending, SERVICES, i);
  }

  // ----- many rounds

  datatype Served = Served(state: Loki, streams: seq<Stream>)

  predicate Fits(l: Loki, rounds: seq<Round>) {
    |l.tails| == |FILES| && forall i :: 0 <= i < |rounds| ==> |rounds[i].polls| == |FILES|
  }

  /** The state after the rounds, and the streams of all accepted posts in order. */
  function Serve(settings: Settings, l: Loki, rounds: seq<Round>): Served
    requires Fits(l, rounds)
    decreases |rounds|
  {
    if rounds == [] then Served(l, [])
    else
      var rest := Serve(settings, After(l, rounds[0]), rounds[1..]);
      Served(rest.state, Delivered(settings, l, rounds[0]) + rest.streams)
  }

  /** The lines the rounds add to a service. */
  function AllNew(l: Loki, rounds: seq<Round>, service: string): seq<string>
    requires Fits(l, rounds)
    decreases |rounds|
  {
    if rounds == [] then []
    else NewLines(l, rounds[0], service) + AllNew(After(l, rounds[0]), rounds[1..], service)
  }

  lemma RoundConserves(settings: Settings, l: Loki, r: Round, service: string)
    requires Fits(l, [r]) && |r.polls| == |FILES| && service in SERVICES && "service" !in settings.extraLabels
    ensures ValuesOf(Delivered(settings, l, r), service) + Queue(After(l, r).pending, service)
         == Queue(l.pending, service) + NewLines(l, r, service)
  {
    hide Collected, NewLines, Total, StreamsOf;
    CollectedQueues(l, r, service);
    BodyTellsServices(settings);
    NothingBefore(Queue(Collected(l, r), service));
    NothingAfter(Queue(Collected(l, r), service));
  }

  /** Conservation: for every service, the values of the accepted posts and then the queue are
      the lines that were enqueued, each once and in order, whatever posts failed. */
  lemma {:induction false} Conservation(settings: Settings, l: Loki, rounds: seq<Round>, service: string)
    requires Fits(l, rounds) && service in SERVICES && "service" !in settings.extraLabels
    ensures var s := Serve(settings, l, rounds);
            ValuesOf(s.streams, service) + Queue(s.state.pending, service)
            == Queue(l.pending, service) + AllNew(l, rounds, service)
    decreases |rounds|
  {
    hide Delivered, After, NewLines, Queue;
    if rounds == [] {
      NothingBefore(Queue(l.pending, service));
      NothingAfter(Queue(l.pending, service));
    } else {
      var r, rest := rounds[0], rounds[1..];
      AfterFits(l, r);
      RoundConserves(settings, l, r, service);
      Conservation(settings, After(l, r), rest, service);
      var s := Serve(settings, After(l, r), rest);
      ValuesAppend(Delivered(settings, l, r), s.streams, service);
      var v1, v2 := ValuesOf(Delivered(settings, l, r), service), ValuesOf(s.streams, service);
      var q0, q1, q2 := Queue(l.pending, service), Queue(After(l, r).pending, service), Queue(s.state.pending, service);
      var n1, n2 := NewLines(l, r, service), AllNew(After(l, r), rest, service);
      Regroup(v1, v2, q2);
      Regroup(v1, q1, n2);
      Regroup(q0, n1, n2);
    }
  }

  lemma AfterFits(l: Loki, r: Round)
    requires |FILES| == |l.tails| == |r.polls|
    ensures |After(l, r).tails| == |FILES|
  {
  }

  // ----- from file to Loki

  function PollsOf(rounds: seq<Round>, k: nat): (r: seq<Poll>)
    requires k < |FILES| && forall i :: 0 <= i < |rounds| ==> |rounds[i].polls| == |FILES|
    ensures |r| == |rounds| && forall i :: 0 <= i < |rounds| ==> r[i] == rounds[i].polls[k]
  {
    seq(|rounds|, i requires 0 <= i < |rounds| => rounds[i].polls[k])
  }

  lemma {:induction false} NonEmptyConcat(a: seq<string>, b: seq<string>)
    ensures NonEmpty(a + b) == NonEmpty(a) + NonEmpty(b)
  {
    if a == [] {
      assert a + b == b;
      NothingBefore(NonEmpty(b));
    } else {
      assert (a + b)[1..] == a[1..] + b;
      NonEmptyConcat(a[1..], b);
      Regroup(if a[0] == "" then [] else [a[0]], NonEmpty(a[1..]), NonEmpty(b));
    }
  }

  lemma CutsAppend(a: seq<string>, b: seq<string>)
    ensures Cuts(a + b) == Cuts(a) + Cuts(b)
  {
  }

  lemma NewOfFile(l: Loki, r: Round, k: nat)
    requires |FILES| == |l.tails| == |r.polls| && k < |FILES|
    ensures NewLines(l, r, FILES[k]) == Cuts(NonEmpty(Follow(l.tails[k], r.polls[k]).lines))
    ensures After(l, r).tails[k] == Follow(l.tails[k], r.polls[k]).tail
  {
    hide Follow, NonEmpty, Cuts;
    ServicesDiffer();
  }

  lemma {:induction false} FileLines(l: Loki, rounds: seq<Round>, k: nat)
    requires Fits(l, rounds) && k < |FILES|
    ensures AllNew(l, rounds, FILES[k]) == Cuts(NonEmpty(Run(l.tails[k], PollsOf(rounds, k)).lines))
    decreases |rounds|
  {
    hide Follow, NewLines, After, Cuts;
    if rounds == [] {
      assert Cuts([]) == [];
    } else {
      var r, rest := rounds[0], rounds[1..];
      AfterFits(l, r);
      NewOfFile(l, r, k);
      FileLines(After(l, r), rest, k);
      assert PollsOf(rounds, k)[1..] == PollsOf(rest, k);
      var a, b := Follow(l.tails[k], r.polls[k]).lines, Run(After(l, r).tails[k], PollsOf(rest, k)).lines;
      NonEmptyConcat(a, b);
      CutsAppend(NonEmpty(a), NonEmpty(b));
    }
  }

  /** From an append-only log file to Loki: what was delivered for its service and what is still
      queued are the non-empty complete lines written since the pusher opened it, each once, in
      order and cut after 8192 characters. */
  lemma {:induction false} FileReachesLoki(settings: Settings, l: Loki, rounds: seq<Round>, k: nat, atOpen: string)
    requires Fits(l, rounds) && k < |FILES| && "service" !in settings.extraLabels
    requires l.pending == map[] && l.tails[k] == Tail(|atOpen|, "") && AppendOnly(atOpen, PollsOf(rounds, k))
    ensures var s, content := Serve(settings, l, rounds), LastContent(atOpen, PollsOf(rounds, k));
            && atOpen <= content
            && var lines := NonEmpty(StripCrs(Split(content[|atOpen|..]).complete));
               var values := ValuesOf(s.streams, FILES[k]) + Queue(s.state.pending, FILES[k]);
               && |values| == |lines|
               && forall i :: 0 <= i < |lines| ==>
                    values[i] == if |lines[i]| <= 8192 then lines[i] else lines[i][..8192]
  {
    hide Split, StripCrs, NonEmpty, Cuts, Serve, Run, AllNew, LastContent, AppendOnly;
    ServicesDistinct();
    assert FILES[k] in FILES;
    Conservation(settings, l, rounds, FILES[k]);
    FileLines(l, rounds, k);
    TailIsBatch(atOpen, PollsOf(rounds, k));
    NothingBefore(AllNew(l, rounds, FILES[k]));
    var content := LastContent(atOpen, PollsOf(rounds, k));
    var lines := NonEmpty(StripCrs(Split(content[|atOpen|..]).complete));
    assert Shortened(lines, Cuts(lines));
  }

  /** The snapshots of the kernel log that could be read. */
  function Snaps(rounds: seq<Round>): seq<seq<string>> {
    if rounds == [] then []
    else (if rounds[0].kernel.Some? then [rounds[0].kernel.value] else []) + Snaps(rounds[1..])
  }

  lemma {:induction false} KernelLines(l: Loki, rounds: seq<Round>)
    requires Fits(l, rounds)
    ensures var snaps := Snaps(rounds);
            AllNew(l, rounds, KERNEL)
            == Cuts(if l.primed then KernelRun(l.kernelLast, snaps)
                    else if snaps == [] then [] else KernelRun(snaps[0], snaps[1..]))
    decreases |rounds|
  {
    hide NewSince, Cuts;
    if rounds == [] {
      assert Cuts([]) == [];
    } else {
      var r, rest := rounds[0], rounds[1..];
      var next := After(l, r);
      KernelLines(next, rest);
      assert Cuts([]) == [];
      NothingBefore(AllNew(next, rest, KERNEL));
      if r.kernel.Some? {
        var snap := r.kernel.value;
        assert Snaps(rounds)[1..] == Snaps(rest);
        CutsAppend(NewSince(l.kernelLast, snap), KernelRun(snap, Snaps(rest)));
      } else {
        NothingBefore(Snaps(rest));
      }
    }
  }

  /** The kernel log while it only grows: everything after the first snapshot, cut the same way. */
  lemma {:induction false} KernelReachesLoki(settings: Settings, l: Loki, rounds: seq<Round>)
    requires Fits(l, rounds) && "service" !in settings.extraLabels
    requires l.pending == map[] && !l.primed && Snaps(rounds) != []
    requires Growing(Snaps(rounds)[0], Snaps(rounds)[1..])
    ensures var s, snaps := Serve(settings, l, rounds), Snaps(rounds);
            var last := LastSnap(snaps[0], snaps[1..]);
            && snaps[0] <= last
            && var lines := last[|snaps[0]|..];
               var values := ValuesOf(s.streams, "dmesg") + Queue(s.state.pending, "dmesg");
               && |values| == |lines|
               && forall i :: 0 <= i < |lines| ==>
                    values[i] == if |lines[i]| <= 8192 then lines[i] else lines[i][..8192]
  {
    hide Cuts, Serve, AllNew, KernelRun, Growing, LastSnap;
    ServicesDistinct();
    Conservation(settings, l, rounds, KERNEL);
    KernelLines(l, rounds);
    var snaps := Snaps(rounds);
    GrowthIsPushed(snaps[0], snaps[1..]);
    var last := LastSnap(snaps[0], snaps[1..]);
    assert last[|snaps[0]|..] == KernelRun(snaps[0], snaps[1..]);
    NothingBefore(AllNew(l, rounds, KERNEL));
    assert Shortened(last[|snaps[0]|..], Cuts(last[|snaps[0]|..]));
  }

  // ----- when a round posts

  lemma {:induction false} SomeStreams(settings: Settings, pending: Pending, services: seq<string>)
    ensures StreamsOf(settings, pending, services) != [] <==> Total(pending, services) > 0
  {
    if services != [] {
      SomeStreams(settings, pending, services[1..]);
    }
  }

  /** A round delivers exactly if its post is accepted, there is something to post, and the interval
      is over or at least 200 lines wait; and then it delivers every queue and leaves them empty. */
  lemma {:induction false} PostsWhenDue(settings: Settings, l: Loki, r: Round)
    requires Fits(l, [r]) && |r.polls| == |FILES| && "service" !in settings.extraLabels
    ensures var n := |Queue(Collected(l, r), "containerd")| + |Queue(Collected(l, r), "dmesg")|
                     + |Queue(Collected(l, r), "kubelet")| + |Queue(Collected(l, r), "pertiskd")|;
            var due := n > 0 && (r.elapsed || n >= 200);
            && (Delivered(settings, l, r) != [] <==> due && r.accepted)
            && After(l, r).backoff == if !due then l.backoff else if r.accepted then 5
                                      else if l.backoff <= 30 then 2 * l.backoff else 60
    ensures forall s :: s in SERVICES ==>
              if Delivered(settings, l, r) != []
              then ValuesOf(Delivered(settings, l, r), s) == Queue(l.pending, s) + NewLines(l, r, s)
                   && Queue(After(l, r).pending, s) == []
              else Queue(After(l, r).pending, s) == Queue(l.pending, s) + NewLines(l, r, s)
  {
    hide Collected, NewLines, StreamsOf, Total, Queue;
    var pending := Collected(l, r);
    TotalOfServices(pending);
    SomeStreams(settings, pending, SERVICES);
    BodyTellsServices(settings);
    forall s ensures Queue(pending, s) == Queue(l.pending, s) + NewLines(l, r, s) {
      CollectedQueues(l, r, s);
    }
    NothingQueued(After(l, r).pending);
  }

  lemma NothingQueued(pending: Pending)
    ensures pending == map[] ==> forall s :: Queue(pending, s) == []
  {
  }

  lemma TotalOfServices(pending: Pending)
    ensures Total(pending, SERVICES) == |Queue(pending, "containerd")| + |Queue(pending, "dmesg")|
                                        + |Queue(pending, "kubelet")| + |Queue(pending, "pertiskd")|
  {
    hide Queue, Total;
    TotalCons(pending, "containerd", ["dmesg", "kubelet", "pertiskd"]);
    TotalCons(pending, "dmesg", ["kubelet", "pertiskd"]);
    TotalCons(pending, "kubelet", ["pertiskd"]);
    TotalCons(pending, "pertiskd", []);
    assert SERVICES == ["containerd"] + ["dmesg", "kubelet", "pertiskd"];
    assert ["dmesg", "kubelet", "pertiskd"] == ["dmesg"] + ["kubelet", "pertiskd"];
    assert ["kubelet", "pertiskd"] == ["kubelet"] + ["pertiskd"] && ["pertiskd"] == ["pertiskd"] + [];
  }

  lemma TotalCons(pending: Pending, first: string, rest: seq<string>)
    ensures Total(pending, [first] + rest) == |Queue(pending, first)| + Total(pending, rest)
    ensures Total(pending, []) == 0
  {
    hide Queue;
    assert ([first] + rest)[1..] == rest;
  }

  // ----- the backoff

  function Doubled(failures: nat): nat {
    if failures == 0 then 5 else 2 * Doubled(failures - 1)
  }

  /** Posts that failed since the last one that was accepted. */
  function Failures(l: Loki, rounds: seq<Round>, since: nat): nat
    requires Fits(l, rounds)
    decreases |rounds|
  {
    if rounds == [] then since
    else
      var posts := Posts(Collected(l, rounds[0]), rounds[0].elapsed);
      Failures(After(l, rounds[0]), rounds[1..],
        if !posts then since else if rounds[0].accepted then 0 else since + 1)
  }

  /** The wait doubles with every failure in a row, from 5 up to 60 seconds, and starts over with
      every accepted post. */
  lemma {:induction false} BackoffFollowsFailures(settings: Settings, l: Loki, rounds: seq<Round>, since: nat)
    requires Fits(l, rounds) && l.backoff == if Doubled(since) <= 60 then Doubled(since) else 60
    ensures var b, n := Serve(settings, l, rounds).state.backoff, Failures(l, rounds, since);
            b == (if Doubled(n) <= 60 then Doubled(n) else 60) && 5 <= b <= 60
    decreases |rounds|
  {
    hide Collected, Posts, Delivered;
    DoubledGrows(since);
    if rounds != [] {
      var r := rounds[0];
      var posts := Posts(Collected(l, r), r.elapsed);
      var next := if !posts then since else if r.accepted then 0 else since + 1;
      BackoffFollowsFailures(settings, After(l, r), rounds[1..], next);
    }
  }

  lemma {:induction false} DoubledGrows(failures: nat)
    ensures Doubled(failures) >= 5
  {
    if failures > 0 {
      DoubledGrows(failures - 1);
    }
  }
}
