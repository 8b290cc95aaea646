/** The history of one collector task: the calls it makes on its client, writer
    and store, and the reference rules every history has to obey
    (src/collector.rs, spec/collector.md). */
module CollectorTrace {
  import opened Wrappers
  import opened MetricTypes

  const MAX_BACKOFF: nat := 60
  const INITIAL_BACKOFF: nat := 1
  const MAX_PRE_POLL_FAILURES: nat := 3

  /** What of the configuration the task depends on; `observed` says whether
      internal metrics are kept. */
  datatype CollectorConfig = CollectorConfig(
    metrics: seq<MetricConfig>, hasWriter: bool, hasInitWrites: bool, hasPrePoll: bool, observed: bool)
  {
    predicate NeedsInit() { hasWriter && hasInitWrites }
    predicate NeedsPrePoll() { hasWriter && hasPrePoll }
  }

  /** One metric's read result: its scaled value, or an error together with what
      `is_connected` answers when asked right after it. */
  datatype Reply = Value(v: real) | Failed(connected: bool)

  datatype Entry = Entry(name: string, reply: Reply)

  datatype Counter = PollsTotal | PollsSuccess | PollsError | ReadErrors

  /** Where a task noticed the shutdown request. */
  datatype Exit = WhileConnecting | BeforeRead | AfterCycle | WhileReconnecting

  datatype Event =
    | Connect(ok: bool)
    | Disconnect
    | InitWrites(ok: bool)
    | PrePoll(ok: bool)
    | CycleStart
    | Read(results: seq<Entry>)
    | Publish(snapshot: map<string, MetricValue>)
    | Wait(secs: nat)
    | Count(counter: Counter)
    | Look(requested: bool) // the task looks whether shutdown is requested
    | Cancel(at: Exit)

  // ----- reading results -----

  function Find(metrics: seq<MetricConfig>, name: string): Option<MetricConfig> {
    if metrics == [] then None
    else if metrics[0].name == name then Some(metrics[0])
    else Find(metrics[1..], name)
  }

  predicate Known(cfg: CollectorConfig, name: string) { Find(cfg.metrics, name).Some? }

  predicate Distinct(results: seq<Entry>) {
    forall i, j :: 0 <= i < j < |results| ==> results[i].name != results[j].name
  }

  /** The sample of a configured metric. */
  function SampleOf(m: MetricConfig, v: real): MetricValue {
    MetricValue(m.name, v, m.kind, map[], m.description, m.unit)
  }

  function CountOf(counts: map<string, nat>, name: string): nat {
    if name in counts then counts[name] else 0
  }

  function Charged(counts: map<string, nat>, name: string): map<string, nat> {
    counts[name := CountOf(counts, name) + 1]
  }

  /** How far a cycle has got with its read results. */
  datatype Progress = Progress(samples: map<string, MetricValue>, counts: map<string, nat>, errors: nat, lost: bool)

  /** One result: names outside the configuration are ignored; an error either
      counts against its metric or reveals that the connection is gone. */
  function Note(cfg: CollectorConfig, p: Progress, e: Entry): Progress {
    match Find(cfg.metrics, e.name)
    case None => p
    case Some(m) =>
      match e.reply
      case Value(v) => p.(samples := p.samples[e.name := SampleOf(m, v)])
      case Failed(connected) =>
        if connected then p.(counts := Charged(p.counts, e.name), errors := p.errors + 1)
        else p.(lost := true)
  }

  /** The first n results, up to the one that reveals a lost connection. */
  function Digest(cfg: CollectorConfig, counts: map<string, nat>, results: seq<Entry>, n: nat): Progress
    requires n <= |results|
  {
    if n == 0 then Progress(map[], counts, 0, false)
    else
      var p := Digest(cfg, counts, results, n - 1);
      if p.lost then p else Note(cfg, p, results[n - 1])
  }

  lemma {:induction false} LostStays(cfg: CollectorConfig, counts: map<string, nat>, results: seq<Entry>, i: nat, n: nat)
    requires i <= n <= |results| && (i == n || Digest(cfg, counts, results, i).lost)
    ensures Digest(cfg, counts, results, n) == Digest(cfg, counts, results, i)
  {
    if i < n {
      LostStays(cfg, counts, results, i, n - 1);
    }
  }

  /** The read errors among the results noted so far. */
  function Failures(p: Progress): nat {
    p.errors + if p.lost then 1 else 0
  }

  // ----- publishing -----

  function ErrorName(name: string): string { name + "_errors" }

  function ErrorSample(name: string, count: nat): MetricValue {
    MetricValue(ErrorName(name), count as real, MetricKind.Counter, map[], "Error count for metric " + name, "")
  }

  /** The cache with the error counter of one metric entered: a new sample, or
      only a new value where the key is taken. */
  function WithError(cache: map<string, MetricValue>, name: string, count: nat): map<string, MetricValue> {
    var key := ErrorName(name);
    if key in cache then cache[key := cache[key].(value := count as real)]
    else cache[key := ErrorSample(name, count)]
  }

  /** Is this the error counter of one of these metrics? */
  ghost predicate Errored(names: set<string>, key: string) {
    exists n :: n in names && ErrorName(n) == key
  }

  /** The cache after entering the error counters of the given metrics, in
      whatever order. The guard keeps this folded in proofs that only pass it on. */
  ghost predicate Overlaid(
    cache: map<string, MetricValue>, counts: map<string, nat>, names: set<string>, r: map<string, MetricValue>)
    requires names <= counts.Keys
  {
    forall b {:trigger Unfold(b)} :: Unfold(b) ==>
      && (forall k :: k in r <==> k in cache || Errored(names, k))
      && (forall n :: n in names ==> r[ErrorName(n)] == WithError(cache, n, counts[n])[ErrorName(n)])
      && (forall k :: k in cache && !Errored(names, k) ==> r[k] == cache[k])
  }

  // ----- what a history amounts to -----

  /** A summary of a history: everything the rules below refer to. */
  datatype Summary = Summary(
    connected: bool,            // the last lifecycle call is a successful connect
    closed: bool,               // the last lifecycle call is a disconnect
    lost: bool,                 // the last read found the connection gone, and no lifecycle call since
    rested: bool,               // a wait since the last connect, or no connect yet
    initialised: bool,          // init writes succeeded since the last lifecycle call
    spoiled: bool,              // init writes failed since the last lifecycle call
    started: bool,              // a cycle is on its way to its read
    prePolled: bool,            // pre-poll writes succeeded in this cycle
    failed: bool,               // the pre-poll or read of the current cycle met an error
    waits: nat,                 // waits since the last successful connect
    streak: nat,                // failed pre-polls since the last successful one or connect
    total: nat, success: nat, error: nat, readErrors: nat,
    aborted: nat,               // reads that found the connection gone
    errors: nat,                // errors entered into the counts
    counts: map<string, nat>,   // errors per metric
    pending: Option<map<string, MetricValue>>, // samples read but not yet published
    latest: map<string, MetricValue>, // most recent published sample of each metric
    published: map<string, MetricValue>, // the last snapshot
    looked: bool,               // a look for shutdown since the last cycle start, publish or wait
    signalled: bool,            // the shutdown request has been noticed
    cancelled: bool)
  {
    /** Every started cycle is accounted for, or all but the current one. */
    predicate Settled() { total == success + error }
    predicate InCycle() { total == success + error + 1 }

    /** Is there something a reconnect could mend? A connect has just failed, or this
        connection has gone, met failed init writes or too many failed
        pre-polls. */
    predicate Broken() {
      if connected then lost || spoiled || streak >= MAX_PRE_POLL_FAILURES
      else !closed && !rested
    }
  }

  const Start := Summary(
    false, false, false, true, false, false, false, false, false, 0, 0, 0, 0, 0, 0, 0, 0, map[], None, map[], map[],
    true, false, false)

  /** One more event: which events change which part of the summary. */
  function Observe(cfg: CollectorConfig, s: Summary, e: Event): Summary {
    var p := if e.Read? then Digest(cfg, s.counts, e.results, |e.results|) else Progress(map[], s.counts, 0, false);
    var up := e == Connect(true);
    Summary(
      connected := up || (!e.Connect? && !e.Disconnect? && s.connected),
      closed := e.Disconnect? || (!e.Connect? && s.closed),
      lost := p.lost || (!e.Connect? && !e.Disconnect? && !e.Read? && s.lost),
      rested := e.Wait? || (!e.Connect? && s.rested),
      initialised := !e.Connect? && !e.Disconnect? && if e.InitWrites? then e.ok else s.initialised,
      spoiled := !e.Connect? && !e.Disconnect? && if e.InitWrites? then !e.ok else s.spoiled,
      started := e.CycleStart? || (!e.Read? && e != PrePoll(false) && s.started),
      prePolled := !e.CycleStart? && if e.PrePoll? then e.ok else s.prePolled,
      failed := !e.CycleStart? && if e.PrePoll? then !e.ok else if e.Read? then Failures(p) > 0 else s.failed,
      waits := if up then 0 else if e.Wait? then s.waits + 1 else s.waits,
      streak := if up || e == PrePoll(true) then 0 else if e == PrePoll(false) then s.streak + 1 else s.streak,
      total := if e == Count(PollsTotal) then s.total + 1 else s.total,
      success := if e == Count(PollsSuccess) then s.success + 1 else s.success,
      error := if e == Count(PollsError) then s.error + 1 else s.error,
      readErrors := if e == Count(ReadErrors) then s.readErrors + 1 else s.readErrors,
      aborted := if p.lost then s.aborted + 1 else s.aborted,
      errors := s.errors + p.errors,
      counts := p.counts,
      pending := if e.Publish? then None else if e.Read? then if p.lost then None else Some(p.samples) else s.pending,
      latest := if e.Publish? && s.pending.Some? then s.latest + s.pending.value else s.latest,
      published := if e.Publish? then e.snapshot else s.published,
      looked := e.Look? || (!e.CycleStart? && !e.Publish? && !e.Wait? && s.looked),
      signalled := e == Look(true) || s.signalled,
      cancelled := e.Cancel? || s.cancelled)
  }

  /** The summary of the first n events. */
  function After(cfg: CollectorConfig, t: seq<Event>, n: nat): Summary
    requires n <= |t|
  {
    if n == 0 then Start else Observe(cfg, After(cfg, t, n - 1), t[n - 1])
  }

  lemma {:induction false} AfterPrefix(cfg: CollectorConfig, t: seq<Event>, u: seq<Event>, n: nat)
    requires n <= |t| && t <= u
    ensures After(cfg, t, n) == After(cfg, u, n)
  {
    if n > 0 {
      AfterPrefix(cfg, t, u, n - 1);
    }
  }

  // ----- the rules -----

  function Double(b: nat): nat {
    if 2 * b > MAX_BACKOFF then MAX_BACKOFF else 2 * b
  }

  /** The wait that follows j earlier waits. */
  function Backoff(j: nat): nat {
    if j == 0 then INITIAL_BACKOFF else Double(Backoff(j - 1))
  }

  /** May this event follow a history with this summary? */
  ghost predicate Permitted(cfg: CollectorConfig, s: Summary, e: Event) {
    (s.cancelled ==> e.Disconnect?) && (s.signalled && !s.cancelled ==> e.Cancel?) &&
    match e
    case Connect(_) => !s.connected && s.rested && s.looked && !s.started
    case Disconnect => s.cancelled || (!s.started && s.pending.None? && s.Broken())
    case InitWrites(_) => s.connected && cfg.NeedsInit() && !s.initialised && !s.spoiled && !s.started
    case PrePoll(_) =>
      && s.connected && s.started && s.looked && (cfg.NeedsInit() ==> s.initialised)
      && cfg.NeedsPrePoll() && s.streak < MAX_PRE_POLL_FAILURES
      && (cfg.observed ==> s.InCycle())
    case CycleStart =>
      && s.connected && !s.lost && !s.spoiled && s.looked && !s.started && s.waits == 0 && s.streak < MAX_PRE_POLL_FAILURES
      && s.pending.None? && s.Settled()
      && (cfg.NeedsInit() ==> s.initialised)
      && (cfg.observed ==> s.readErrors == s.errors + s.aborted)
    case Read(results) =>
      && s.connected && !s.lost && s.started && s.looked && Distinct(results)
      && (cfg.NeedsInit() ==> s.initialised)
      && (cfg.NeedsPrePoll() ==> s.prePolled)
      && (cfg.observed ==> s.InCycle())
    case Publish(snapshot) =>
      && s.connected && s.pending.Some? && s.Settled()
      && Overlaid(s.published + s.pending.value, s.counts, s.counts.Keys, snapshot)
      && (cfg.observed ==> s.readErrors == s.errors + s.aborted)
    case Wait(secs) => !s.connected && secs == Backoff(s.waits)
    case Count(PollsTotal) => cfg.observed && s.Settled() && s.started
    case Count(PollsSuccess) => cfg.observed && s.InCycle() && s.pending.Some? && !s.failed && !s.started
    case Count(PollsError) => cfg.observed && s.InCycle() && s.failed && !s.started
    case Count(ReadErrors) => cfg.observed
    case Look(_) => true
    case Cancel(at) =>
      && s.signalled && s.pending.None? && s.started == (at == BeforeRead)
      && (if s.started && cfg.observed then s.InCycle() else s.Settled())
      && (cfg.observed ==> s.readErrors == s.errors + s.aborted)
  }

  ghost predicate PermittedAt(cfg: CollectorConfig, t: seq<Event>, i: nat)
    requires i < |t|
  {
    Permitted(cfg, After(cfg, t, i), t[i])
  }

  /** Every event of the history obeys the rules. */
  ghost predicate Legal(cfg: CollectorConfig, t: seq<Event>) {
    forall i {:trigger PermittedAt(cfg, t, i)} :: 0 <= i < |t| ==> PermittedAt(cfg, t, i)
  }

  /** A permitted event extends a legal history. */
  lemma {:induction false} Extends(cfg: CollectorConfig, t: seq<Event>, e: Event)
    requires Legal(cfg, t) && Permitted(cfg, After(cfg, t, |t|), e)
    ensures After(cfg, t + [e], |t| + 1) == Observe(cfg, After(cfg, t, |t|), e)
    ensures Legal(cfg, t + [e])
  {
    var u := t + [e];
    forall i | 0 <= i < |u| ensures PermittedAt(cfg, u, i) {
      AfterPrefix(cfg, t, u, i);
      if i < |t| {
        assert PermittedAt(cfg, t, i);
      }
    }
    AfterPrefix(cfg, t, u, |t|);
  }

  /** The end of a finished run. */
  predicate Finished(s: Summary) { s.cancelled && s.closed }
}
