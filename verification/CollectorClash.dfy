/** When metric names get into each other's way: a configuration publishes every
    delivered value in every run if and only if no metric is named like the error
    counter of another. */
module CollectorClash {
  import opened Wrappers
  import opened MetricTypes
  import opened CollectorTrace
  import opened CollectorCounts
  import opened CollectorValues

  // ----- a run with a clash, for every configuration with such names -----

  predicate Quiet(t: seq<Event>) {
    forall k :: 0 <= k < |t| ==> !t[k].Read? && !t[k].Publish?
  }

  /** A connected task in its first cycle, nothing read so far. */
  predicate Blank(cfg: CollectorConfig, s: Summary) {
    && s.connected && !s.lost && !s.spoiled && !s.signalled && !s.cancelled
    && (cfg.NeedsInit() ==> s.initialised) && (!s.started ==> s.looked)
    && s.waits == 0 && s.streak == 0
    && s.success == 0 && s.error == 0 && s.readErrors == 0 && s.errors == 0 && s.aborted == 0
    && s.counts == map[] && s.published == map[] && s.pending.None?
  }

  /** A legal history that has come as far as this. */
  ghost predicate Gone(cfg: CollectorConfig, t: seq<Event>, started: bool, total: nat) {
    var s := After(cfg, t, |t|);
    Legal(cfg, t) && Quiet(t) && Blank(cfg, s) && s.started == started && s.total == total
  }

  lemma {:induction false} Opening(cfg: CollectorConfig) returns (t: seq<Event>)
    ensures Gone(cfg, t, false, 0)
  {
    t := [];
    var e := Connect(true);
    Extends(cfg, t, e);
    t := t + [e];
    if cfg.NeedsInit() {
      Extends(cfg, t, InitWrites(true));
      t := t + [InitWrites(true)];
    }
  }

  lemma {:induction false} StartGoesOn(cfg: CollectorConfig, t: seq<Event>)
    requires Gone(cfg, t, false, 0)
    ensures Gone(cfg, t + [CycleStart], true, 0)
  {
    Extends(cfg, t, CycleStart);
  }

  lemma {:induction false} CountGoesOn(cfg: CollectorConfig, t: seq<Event>)
    requires cfg.observed && Gone(cfg, t, true, 0)
    ensures Gone(cfg, t + [Count(PollsTotal)], true, 1)
  {
    Extends(cfg, t, Count(PollsTotal));
  }

  lemma {:induction false} CycleOpening(cfg: CollectorConfig) returns (t: seq<Event>)
    ensures Gone(cfg, t, true, if cfg.observed then 1 else 0)
  {
    t := Opening(cfg);
    StartGoesOn(cfg, t);
    t := t + [CycleStart];
    if cfg.observed {
      CountGoesOn(cfg, t);
      t := t + [Count(PollsTotal)];
    }
  }

  lemma {:induction false} LookGoesOn(cfg: CollectorConfig, t: seq<Event>, total: nat)
    requires Gone(cfg, t, true, total)
    ensures Gone(cfg, t + [Look(false)], true, total) && After(cfg, t + [Look(false)], |t| + 1).looked
  {
    Extends(cfg, t, Look(false));
  }

  lemma {:induction false} ReadOpening(cfg: CollectorConfig) returns (t: seq<Event>)
    ensures Gone(cfg, t, true, if cfg.observed then 1 else 0)
    ensures After(cfg, t, |t|).looked && (cfg.NeedsPrePoll() ==> After(cfg, t, |t|).prePolled)
  {
    t := CycleOpening(cfg);
    LookGoesOn(cfg, t, if cfg.observed then 1 else 0);
    t := t + [Look(false)];
    if cfg.NeedsPrePoll() {
      Extends(cfg, t, PrePoll(true));
      t := t + [PrePoll(true)];
    }
  }

  /** One metric fails, another one delivers a value. */
  function ClashResults(a: string, b: string, v: real): seq<Entry> {
    [Entry(a, Failed(true)), Entry(b, Value(v))]
  }

  lemma {:induction false} ClashDigest(cfg: CollectorConfig, a: string, b: string, v: real, counts: map<string, nat>)
    requires Known(cfg, a) && Known(cfg, b) && counts == map[]
    ensures var results := ClashResults(a, b, v);
            Digest(cfg, counts, results, |results|)
            == Progress(map[b := SampleOf(Find(cfg.metrics, b).value, v)], map[a := 1], 1, false)
  {
    var results := ClashResults(a, b, v);
    var i := |results| - 2;
    var p := Digest(cfg, counts, results, i);
    assert Note(cfg, p, results[0]) == Progress(map[], map[a := 1], 1, false);
    assert Digest(cfg, counts, results, i + 1) == Note(cfg, p, results[0]);
  }

  /** What the history amounts to after that read, with so many errors counted. */
  predicate Clashing(cfg: CollectorConfig, s: Summary, a: string, b: string, v: real, readErrors: nat, error: nat)
    requires Known(cfg, b)
  {
    && s.connected && !s.signalled && !s.cancelled && !s.started && s.failed
    && s.pending == Some(map[b := SampleOf(Find(cfg.metrics, b).value, v)])
    && s.counts == map[a := 1] && s.published == map[]
    && s.errors == 1 && s.aborted == 0
    && s.success == 0 && s.error == error && s.readErrors == readErrors && s.total == if cfg.observed then 1 else 0
  }

  /** The r-th event is the only read, and nothing is published. */
  predicate OnlyRead(t: seq<Event>, r: nat) {
    r < |t| && forall k :: 0 <= k < |t| ==> !t[k].Publish? && (t[k].Read? ==> k == r)
  }

  ghost predicate Clashed(
    cfg: CollectorConfig, t: seq<Event>, r: nat, a: string, b: string, v: real, readErrors: nat, error: nat) {
    && Legal(cfg, t) && OnlyRead(t, r) && t[r] == Event.Read(ClashResults(a, b, v)) && Known(cfg, b)
    && Clashing(cfg, After(cfg, t, |t|), a, b, v, readErrors, error)
  }

  lemma {:induction false} ReadClashes(cfg: CollectorConfig, s: Summary, a: string, b: string, v: real)
    requires Known(cfg, a) && Known(cfg, b) && a != b
    requires Blank(cfg, s) && s.started && s.looked && s.total == (if cfg.observed then 1 else 0) && (cfg.NeedsPrePoll() ==> s.prePolled)
    ensures Permitted(cfg, s, Event.Read(ClashResults(a, b, v)))
    ensures Clashing(cfg, Observe(cfg, s, Event.Read(ClashResults(a, b, v))), a, b, v, 0, 0)
  {
    ClashDigest(cfg, a, b, v, s.counts);
  }

  lemma {:induction false} ClashRead(cfg: CollectorConfig, a: string, b: string, v: real) returns (t: seq<Event>, r: nat)
    requires Known(cfg, a) && Known(cfg, b) && a != b
    ensures Clashed(cfg, t, r, a, b, v, 0, 0)
  {
    t := ReadOpening(cfg);
    r := |t|;
    var e := Event.Read(ClashResults(a, b, v));
    ReadClashes(cfg, After(cfg, t, |t|), a, b, v);
    Extends(cfg, t, e);
    t := t + [e];
  }

  lemma {:induction false} ErrorClashes(cfg: CollectorConfig, s: Summary, a: string, b: string, v: real)
    requires cfg.observed && Known(cfg, b) && Clashing(cfg, s, a, b, v, 0, 0)
    ensures Permitted(cfg, s, Count(Counter.ReadErrors))
    ensures Clashing(cfg, Observe(cfg, s, Count(Counter.ReadErrors)), a, b, v, 1, 0)
  {
  }

  lemma {:induction false} CycleClashes(cfg: CollectorConfig, s: Summary, a: string, b: string, v: real)
    requires cfg.observed && Known(cfg, b) && Clashing(cfg, s, a, b, v, 1, 0)
    ensures Permitted(cfg, s, Count(PollsError))
    ensures Clashing(cfg, Observe(cfg, s, Count(PollsError)), a, b, v, 1, 1)
  {
  }

  lemma {:induction false} ClashCounted(
    cfg: CollectorConfig, t: seq<Event>, r: nat, a: string, b: string, v: real)
    returns (u: seq<Event>)
    requires cfg.observed && Clashed(cfg, t, r, a, b, v, 0, 0)
    ensures Clashed(cfg, u, r, a, b, v, 1, 1)
  {
    var e, f := Count(Counter.ReadErrors), Count(PollsError);
    ErrorClashes(cfg, After(cfg, t, |t|), a, b, v);
    Extends(cfg, t, e);
    u := t + [e];
    CycleClashes(cfg, After(cfg, u, |u|), a, b, v);
    Extends(cfg, u, f);
    u := u + [f];
  }

  /** The clash is real in every configuration that has a metric called `a` and one
      called `a_errors`: there is a run in which the second one's value is
      replaced by the number of errors of the first. */
  lemma {:induction false} ErrorCounterShadowsMetric(cfg: CollectorConfig, a: string, v: real)
    returns (t: seq<Event>, r: nat, p: nat)
    requires Known(cfg, a) && Known(cfg, ErrorName(a))
    ensures Legal(cfg, t) && p < |t| && t[p].Publish? && LatestDelivery(cfg, t, r, p, p + 1, ErrorName(a), v)
    ensures ErrorName(a) in t[p].snapshot && t[p].snapshot[ErrorName(a)].value == 1.0
  {
    var b := ErrorName(a);
    assert |b| > |a|;
    t, r := ClashRead(cfg, a, b, v);
    if cfg.observed {
      t := ClashCounted(cfg, t, r, a, b, v);
    }
    p := |t|;
    var e := Publish(WithError(After(cfg, t, |t|).pending.value, a, 1));
    CountIsPublished(cfg, t, e, r, a, b, v);
    PublishedAfterRead(cfg, t, e, r, a, b, v);
    t := t + [e];
  }

  lemma {:induction false} CountIsPublished(cfg: CollectorConfig, t: seq<Event>, e: Event, r: nat, a: string, b: string, v: real)
    requires b == ErrorName(a)
    requires Clashed(cfg, t, r, a, b, v, if cfg.observed then 1 else 0, if cfg.observed then 1 else 0)
    requires e == Publish(WithError(After(cfg, t, |t|).pending.value, a, 1))
    ensures Legal(cfg, t + [e]) && b in e.snapshot && e.snapshot[b].value == 1.0
  {
    var s := After(cfg, t, |t|);
    assert s.published + s.pending.value == s.pending.value;
    assert Overlaid(s.pending.value, s.counts, s.counts.Keys, e.snapshot);
    Extends(cfg, t, e);
  }

  lemma {:induction false} PublishedAfterRead(
    cfg: CollectorConfig, t: seq<Event>, e: Event, r: nat, a: string, b: string, v: real)
    requires OnlyRead(t, r) && e.Publish?
    requires t[r] == Event.Read(ClashResults(a, b, v)) && Known(cfg, b)
    ensures LatestDelivery(cfg, t + [e], r, |t|, |t| + 1, b, v)
  {
    var u, results := t + [e], ClashResults(a, b, v);
    assert results[1] == Entry(b, Value(v));
    assert !ReadLoses(cfg, results) by {
      forall k: nat ensures !LossAt(cfg, results, k) {
      }
    }
  }

  // ----- exactly when every value is published -----

  /** A publish replaces the most recent value of a metric by something else. */
  ghost predicate Replaces(cfg: CollectorConfig, t: seq<Event>, p: nat, name: string, r: nat, q: nat, v: real) {
    && Legal(cfg, t) && p < |t| && t[p].Publish? && LatestDelivery(cfg, t, r, q, p + 1, name, v)
    && !(name in t[p].snapshot && t[p].snapshot[name] == SampleOf(Find(cfg.metrics, name).value, v))
  }

  /** Every snapshot of every run holds the most recent value of every delivered
      metric, if and only if no metric is named like the error counter of
      another. */
  lemma {:induction false} FaithfulIffNoErrorNames(cfg: CollectorConfig)
    ensures (forall t, p, name, r, q, v :: !Replaces(cfg, t, p, name, r, q, v)) <==> NoErrorNames(cfg)
  {
    if NoErrorNames(cfg) {
      forall t: seq<Event>, p: nat, name: string, r: nat, q: nat, v: real ensures !Replaces(cfg, t, p, name, r, q, v) {
        if Legal(cfg, t) && p < |t| && t[p].Publish? && LatestDelivery(cfg, t, r, q, p + 1, name, v) {
          PublishedIsMostRecent(cfg, t, p, name, r, q, v);
        }
      }
    } else {
      var a, b :| Known(cfg, a) && Known(cfg, b) && ErrorName(a) == b;
      var t, r, p := ErrorCounterShadowsMetric(cfg, a, 0.0);
      assert Replaces(cfg, t, p, b, r, p, 0.0);
    }
  }
}
