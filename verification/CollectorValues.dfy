/** What a collector task publishes: for every metric its most recent value among
    the cycles that reached publishing, and for every metric that ever failed its
    error count. */
module CollectorValues {
  import opened Wrappers
  import opened MetricTypes
  import opened CollectorTrace
  import opened CollectorCounts

  // ----- the samples of one read -----

  /** The read delivers this value for this metric, and finishes. */
  ghost predicate Delivers(cfg: CollectorConfig, e: Event, name: string, v: real) {
    && e.Read? && !ReadLoses(cfg, e.results) && Known(cfg, name)
    && Entry(name, Value(v)) in e.results
  }

  ghost predicate DeliversAny(cfg: CollectorConfig, e: Event, name: string) {
    exists v :: Delivers(cfg, e, name, v)
  }

  lemma {:induction false} DigestSamples(
    cfg: CollectorConfig, counts: map<string, nat>, results: seq<Entry>, n: nat, name: string)
    requires n <= |results| && Distinct(results) && !Digest(cfg, counts, results, n).lost
    ensures var p := Digest(cfg, counts, results, n);
            && (name in p.samples ==>
                 && Known(cfg, name)
                 && exists k :: 0 <= k < n && results[k].name == name && results[k].reply.Value?
                             && p.samples[name] == SampleOf(Find(cfg.metrics, name).value, results[k].reply.v))
            && (forall k :: 0 <= k < n && results[k].name == name && results[k].reply.Value? && Known(cfg, name) ==> name in p.samples)
  {
    if n > 0 {
      DigestSamples(cfg, counts, results, n - 1, name);
    }
  }

  /** With one result per name, the samples of a finished read are exactly the
      delivered values. */
  lemma {:induction false} SamplesAreDelivered(cfg: CollectorConfig, counts: map<string, nat>, e: Event, name: string)
    requires e.Read? && Distinct(e.results) && !ReadLoses(cfg, e.results)
    ensures var p := Digest(cfg, counts, e.results, |e.results|);
            && !p.lost
            && (name in p.samples <==> DeliversAny(cfg, e, name))
            && (forall v :: Delivers(cfg, e, name, v) ==>
                  name in p.samples && p.samples[name] == SampleOf(Find(cfg.metrics, name).value, v))
  {
    var results := e.results;
    DigestMeaning(cfg, counts, results);
    DigestSamples(cfg, counts, results, |results|, name);
    var p := Digest(cfg, counts, results, |results|);
    if name in p.samples {
      var k :| 0 <= k < |results| && results[k].name == name && results[k].reply.Value?
               && p.samples[name] == SampleOf(Find(cfg.metrics, name).value, results[k].reply.v);
      assert results[k] == Entry(name, Value(results[k].reply.v));
      assert Delivers(cfg, e, name, results[k].reply.v);
    }
    forall v | Delivers(cfg, e, name, v)
      ensures name in p.samples && p.samples[name] == SampleOf(Find(cfg.metrics, name).value, v)
    {
      var i :| 0 <= i < |results| && results[i] == Entry(name, Value(v));
      var k :| 0 <= k < |results| && results[k].name == name && results[k].reply.Value?
               && p.samples[name] == SampleOf(Find(cfg.metrics, name).value, results[k].reply.v);
      assert i == k;
    }
  }

  // ----- which reads get published -----

  /** The read at r is published at p. */
  ghost predicate Reaches(t: seq<Event>, r: nat, p: nat) {
    r < p < |t| && t[r].Read? && t[p].Publish? && forall k :: r < k < p ==> !t[k].Read? && !t[k].Publish?
  }

  lemma {:induction false} FindRead(cfg: CollectorConfig, t: seq<Event>, n: nat) returns (r: nat)
    requires n <= |t| && After(cfg, t, n).pending.Some?
    ensures r < n && t[r].Read? && forall k :: r < k < n ==> !t[k].Read? && !t[k].Publish?
    ensures !ReadLoses(cfg, t[r].results)
    ensures After(cfg, t, n).pending.value == Digest(cfg, After(cfg, t, r).counts, t[r].results, |t[r].results|).samples
  {
    if t[n - 1].Read? {
      r := n - 1;
      DigestMeaning(cfg, After(cfg, t, r).counts, t[r].results);
    } else {
      r := FindRead(cfg, t, n - 1);
    }
  }

  /** Every snapshot comes from a read of its own cycle that did not lose the
      connection; the samples it adds are what that read delivered. */
  lemma {:induction false} PublishFollowsRead(cfg: CollectorConfig, t: seq<Event>, p: nat) returns (r: nat)
    requires Legal(cfg, t) && p < |t| && t[p].Publish?
    ensures Reaches(t, r, p) && !ReadLoses(cfg, t[r].results) && Distinct(t[r].results)
    ensures After(cfg, t, p).pending.Some?
    ensures After(cfg, t, p).pending.value == Digest(cfg, After(cfg, t, r).counts, t[r].results, |t[r].results|).samples
  {
    assert PermittedAt(cfg, t, p);
    r := FindRead(cfg, t, p);
    assert PermittedAt(cfg, t, r);
  }

  /** A read that found the connection gone is never published. */
  lemma {:induction false} LostReadsAreNotPublished(cfg: CollectorConfig, t: seq<Event>, r: nat, p: nat)
    requires Legal(cfg, t) && Reaches(t, r, p)
    ensures !ReadLoses(cfg, t[r].results) && Distinct(t[r].results)
  {
    var q := PublishFollowsRead(cfg, t, p);
    assert q == r;
  }

  // ----- the most recent value of a metric -----

  /** v is what the most recent read that was published before n and delivered the
      metric at all delivered for it. */
  ghost predicate LatestDelivery(cfg: CollectorConfig, t: seq<Event>, r: nat, p: nat, n: nat, name: string, v: real) {
    && Reaches(t, r, p) && p < n && Delivers(cfg, t[r], name, v)
    && forall r': nat, p': nat :: Reaches(t, r', p') && p < p' < n ==> !DeliversAny(cfg, t[r'], name)
  }

  ghost predicate NeverDelivered(cfg: CollectorConfig, t: seq<Event>, n: nat, name: string) {
    forall r: nat, p: nat :: Reaches(t, r, p) && p < n ==> !DeliversAny(cfg, t[r], name)
  }

  /** Either the metric has a latest sample and a read that delivered it, or it
      was never delivered. */
  ghost predicate LatestExplained(cfg: CollectorConfig, t: seq<Event>, n: nat, name: string)
    requires n <= |t|
  {
    var latest := After(cfg, t, n).latest;
    if name in latest then
      exists r: nat, p: nat, v :: LatestDelivery(cfg, t, r, p, n, name, v) && latest[name] == SampleOf(Find(cfg.metrics, name).value, v)
    else NeverDelivered(cfg, t, n, name)
  }

  lemma {:induction false} DeliveryIsLatest(cfg: CollectorConfig, t: seq<Event>, r: nat, m: nat, n: nat, name: string)
    requires n == m + 1 <= |t| && Reaches(t, r, m) && DeliversAny(cfg, t[r], name)
    ensures exists v :: LatestDelivery(cfg, t, r, m, n, name, v)
  {
    var v :| Delivers(cfg, t[r], name, v);
    assert LatestDelivery(cfg, t, r, m, n, name, v);
  }

  lemma {:induction false} OnlyRead(t: seq<Event>, r: nat, q: nat, m: nat)
    requires Reaches(t, r, m) && Reaches(t, q, m)
    ensures r == q
  {
  }

  lemma {:induction false} NothingNewDelivered(cfg: CollectorConfig, t: seq<Event>, r: nat, m: nat, n: nat, name: string)
    requires n == m + 1 <= |t| && Reaches(t, r, m) && !DeliversAny(cfg, t[r], name)
    ensures NeverDelivered(cfg, t, m, name) ==> NeverDelivered(cfg, t, n, name)
    ensures forall q: nat, p: nat, v :: LatestDelivery(cfg, t, q, p, m, name, v) ==> LatestDelivery(cfg, t, q, p, n, name, v)
  {
    forall q: nat | Reaches(t, q, m) ensures !DeliversAny(cfg, t[q], name) {
      OnlyRead(t, r, q, m);
    }
  }

  lemma {:induction false} PublishUpdatesLatest(cfg: CollectorConfig, t: seq<Event>, m: nat, n: nat, name: string)
    requires Legal(cfg, t) && n == m + 1 <= |t| && t[m].Publish? && LatestExplained(cfg, t, m, name)
    ensures LatestExplained(cfg, t, n, name)
  {
    var r := PublishFollowsRead(cfg, t, m);
    SamplesAreDelivered(cfg, After(cfg, t, r).counts, t[r], name);
    var before, samples := After(cfg, t, m).latest, After(cfg, t, m).pending.value;
    assert After(cfg, t, n).latest == before + samples;
    if DeliversAny(cfg, t[r], name) {
      DeliveryIsLatest(cfg, t, r, m, n, name);
    } else {
      NothingNewDelivered(cfg, t, r, m, n, name);
    }
  }

  lemma {:induction false} OthersKeepLatest(cfg: CollectorConfig, t: seq<Event>, m: nat, n: nat, name: string)
    requires n == m + 1 <= |t| && !t[m].Publish? && LatestExplained(cfg, t, m, name)
    ensures LatestExplained(cfg, t, n, name)
  {
    var before := After(cfg, t, m).latest;
    assert After(cfg, t, n).latest == before;
    assert forall r': nat, p': nat :: Reaches(t, r', p') && p' < n ==> p' < m;
    if name in before {
      var q: nat, p: nat, v :| LatestDelivery(cfg, t, q, p, m, name, v) && before[name] == SampleOf(Find(cfg.metrics, name).value, v);
      assert LatestDelivery(cfg, t, q, p, n, name, v);
    }
  }

  lemma {:induction false} LatestIsExplained(cfg: CollectorConfig, t: seq<Event>, n: nat, name: string)
    requires Legal(cfg, t) && n <= |t|
    ensures LatestExplained(cfg, t, n, name)
  {
    if n == 0 {
      assert name !in After(cfg, t, n).latest;
    } else {
      LatestIsExplained(cfg, t, n - 1, name);
      if t[n - 1].Publish? {
        PublishUpdatesLatest(cfg, t, n - 1, n, name);
      } else {
        OthersKeepLatest(cfg, t, n - 1, n, name);
      }
    }
  }

  lemma {:induction false} LatestIsUnique(
    cfg: CollectorConfig, t: seq<Event>, r: nat, p: nat, q: nat, s: nat, n: nat, name: string, v: real, w: real)
    requires Legal(cfg, t)
    requires LatestDelivery(cfg, t, r, p, n, name, v) && LatestDelivery(cfg, t, q, s, n, name, w)
    ensures v == w
  {
    assert p == s && r == q;
    LostReadsAreNotPublished(cfg, t, r, p);
    var results := t[r].results;
    var i :| 0 <= i < |results| && results[i] == Entry(name, Value(v));
    var j :| 0 <= j < |results| && results[j] == Entry(name, Value(w));
    assert i == j;
  }

  lemma {:induction false} LatestIsDelivered(cfg: CollectorConfig, t: seq<Event>, r: nat, p: nat, n: nat, name: string, v: real)
    requires Legal(cfg, t) && n <= |t| && LatestDelivery(cfg, t, r, p, n, name, v)
    ensures name in After(cfg, t, n).latest && After(cfg, t, n).latest[name] == SampleOf(Find(cfg.metrics, name).value, v)
  {
    LatestIsExplained(cfg, t, n, name);
    var latest := After(cfg, t, n).latest;
    assert DeliversAny(cfg, t[r], name);
    if name in latest {
      var q: nat, s: nat, w :| LatestDelivery(cfg, t, q, s, n, name, w) && latest[name] == SampleOf(Find(cfg.metrics, name).value, w);
      LatestIsUnique(cfg, t, r, p, q, s, n, name, v, w);
    }
  }

  // ----- snapshots -----

  lemma {:induction false} ErroredGrows(names: set<string>, more: set<string>, key: string)
    requires names <= more && Errored(names, key)
    ensures Errored(more, key)
  {
    var n :| n in names && ErrorName(n) == key;
    assert n in more;
  }

  /** A sample made for the error counter of some metric. */
  ghost predicate CounterSample(v: MetricValue, key: string) {
    exists name, count :: ErrorName(name) == key && v == ErrorSample(name, count)
  }

  predicate SameButValue(v: MetricValue, w: MetricValue) { v == w.(value := v.value) }

  /** What the retained cache holds under one key. */
  ghost predicate Retained(s: Summary, key: string) {
    && (key in s.latest ==> key in s.published)
    && (key in s.published ==> key in s.latest || Errored(s.counts.Keys, key))
    && (key in s.published && !Errored(s.counts.Keys, key) ==> s.published[key] == s.latest[key])
    && (key in s.published && key in s.latest ==> SameButValue(s.published[key], s.latest[key]))
    && (key in s.published && key !in s.latest ==> CounterSample(s.published[key], key))
  }

  lemma {:induction false} CountersStayCounters(s: Summary, snapshot: map<string, MetricValue>, key: string)
    requires s.pending.Some? && Overlaid(s.published + s.pending.value, s.counts, s.counts.Keys, snapshot)
    requires Retained(s, key) && key in snapshot && key !in s.latest + s.pending.value
    ensures CounterSample(snapshot[key], key)
  {
    assert Unfold(true);
    var cache := s.published + s.pending.value;
    if Errored(s.counts.Keys, key) {
      var name :| name in s.counts.Keys && ErrorName(name) == key;
      assert snapshot[key] == WithError(cache, name, s.counts[name])[key];
      if key in cache {
        var other, count :| ErrorName(other) == key && s.published[key] == ErrorSample(other, count);
        assert snapshot[key] == ErrorSample(other, s.counts[name]);
      } else {
        assert snapshot[key] == ErrorSample(name, s.counts[name]);
      }
    }
  }

  lemma {:induction false} ReadRetains(cfg: CollectorConfig, s: Summary, e: Event, key: string)
    requires e.Read? && Retained(s, key)
    ensures Retained(Observe(cfg, s, e), key)
  {
    var counts := Observe(cfg, s, e).counts;
    forall name | name in s.counts ensures name in counts {
      DigestAddsUp(cfg, s.counts, e.results, |e.results|, name);
    }
    if Errored(s.counts.Keys, key) {
      ErroredGrows(s.counts.Keys, counts.Keys, key);
    }
  }

  lemma {:induction false} PublishRetains(s: Summary, t: Summary, snapshot: map<string, MetricValue>, key: string)
    requires s.pending.Some? && Overlaid(s.published + s.pending.value, s.counts, s.counts.Keys, snapshot) && Retained(s, key)
    requires t.published == snapshot && t.latest == s.latest + s.pending.value && t.counts == s.counts
    ensures Retained(t, key) && (key in s.published ==> key in t.published)
  {
    assert Unfold(true);
    if key in snapshot && key !in t.latest {
      CountersStayCounters(s, snapshot, key);
    }
  }

  lemma {:induction false} StepRetains(cfg: CollectorConfig, s: Summary, e: Event, key: string)
    requires Permitted(cfg, s, e) && Retained(s, key)
    ensures Retained(Observe(cfg, s, e), key)
    ensures key in s.published ==> key in Observe(cfg, s, e).published
  {
    if e.Read? {
      ReadRetains(cfg, s, e, key);
    } else if e.Publish? {
      PublishRetains(s, Observe(cfg, s, e), e.snapshot, key);
    }
  }

  lemma {:induction false} CacheIsRetained(cfg: CollectorConfig, t: seq<Event>, n: nat, key: string)
    requires Legal(cfg, t) && n <= |t|
    ensures Retained(After(cfg, t, n), key)
  {
    if n > 0 {
      CacheIsRetained(cfg, t, n - 1, key);
      assert PermittedAt(cfg, t, n - 1);
      StepRetains(cfg, After(cfg, t, n - 1), t[n - 1], key);
    }
  }

  /** One key of a snapshot that carries an error counter. */
  lemma {:induction false} CounterInSnapshot(cfg: CollectorConfig, t: seq<Event>, n: nat, name: string)
    requires Legal(cfg, t) && n < |t| && t[n].Publish? && name in After(cfg, t, n).counts
    ensures ErrorName(name) in t[n].snapshot
    ensures t[n].snapshot[ErrorName(name)].value == After(cfg, t, n).counts[name] as real
  {
    assert Unfold(true);
    assert PermittedAt(cfg, t, n);
    var s := After(cfg, t, n);
    assert Errored(s.counts.Keys, ErrorName(name));
  }

  lemma {:induction false} CountsStay(cfg: CollectorConfig, t: seq<Event>, n: nat)
    requires n < |t| && t[n].Publish?
    ensures After(cfg, t, n + 1).counts == After(cfg, t, n).counts
    ensures After(cfg, t, n + 1).published == t[n].snapshot
  {
  }

  /** A snapshot, key by key, in terms of the summary before and after it. */
  lemma {:induction false} SnapshotSummary(cfg: CollectorConfig, t: seq<Event>, n: nat, key: string)
    requires Legal(cfg, t) && n < |t| && t[n].Publish?
    ensures var snapshot, latest, counts := t[n].snapshot, After(cfg, t, n + 1).latest, After(cfg, t, n).counts;
            && (key in snapshot <==> key in latest || Errored(counts.Keys, key))
            && (key in snapshot && !Errored(counts.Keys, key) ==> snapshot[key] == latest[key])
            && (key in snapshot && key in latest ==> SameButValue(snapshot[key], latest[key]))
            && (key in snapshot && key !in latest ==> CounterSample(snapshot[key], key))
  {
    CacheIsRetained(cfg, t, n + 1, key);
    CountsStay(cfg, t, n);
    var counts := After(cfg, t, n).counts;
    if Errored(counts.Keys, key) {
      var name :| name in counts.Keys && ErrorName(name) == key;
      CounterInSnapshot(cfg, t, n, name);
    }
  }

  /** Is this the name of the error counter of a metric that has failed? */
  ghost predicate CounterKey(cfg: CollectorConfig, t: seq<Event>, n: nat, key: string)
    requires n <= |t|
  {
    exists name :: ErrorsOf(cfg, t, n, name) > 0 && ErrorName(name) == key
  }

  lemma {:induction false} ErroredIsCounterKey(cfg: CollectorConfig, t: seq<Event>, n: nat, key: string)
    requires Legal(cfg, t) && n <= |t|
    ensures Errored(After(cfg, t, n).counts.Keys, key) <==> CounterKey(cfg, t, n, key)
  {
    forall name: string ensures name in After(cfg, t, n).counts <==> ErrorsOf(cfg, t, n, name) > 0 {
      ErrorsCounted(cfg, t, n, name);
    }
  }

  lemma {:induction false} LatestIffDelivered(cfg: CollectorConfig, t: seq<Event>, n: nat, name: string)
    requires Legal(cfg, t) && n <= |t|
    ensures name in After(cfg, t, n).latest <==> !NeverDelivered(cfg, t, n, name)
  {
    LatestIsExplained(cfg, t, n, name);
    if name in After(cfg, t, n).latest {
      var r: nat, p: nat, v :| LatestDelivery(cfg, t, r, p, n, name, v);
      assert DeliversAny(cfg, t[r], name);
    }
  }

  /** The keys of a snapshot: what some published read delivered, and the error
      counters of the metrics that have failed; nothing else is in it, nothing is
      missing. */
  lemma {:induction false} SnapshotKeys(cfg: CollectorConfig, t: seq<Event>, n: nat, key: string)
    requires Legal(cfg, t) && n < |t| && t[n].Publish?
    ensures key in t[n].snapshot <==> !NeverDelivered(cfg, t, n + 1, key) || CounterKey(cfg, t, n, key)
  {
    SnapshotSummary(cfg, t, n, key);
    ErroredIsCounterKey(cfg, t, n, key);
    LatestIffDelivered(cfg, t, n + 1, key);
  }

  /** Every metric that has failed is published with its number of errors, as a
      counter of its own unless a metric of that name has been delivered. */
  lemma {:induction false} CounterIsPublished(cfg: CollectorConfig, t: seq<Event>, n: nat, name: string)
    requires Legal(cfg, t) && n < |t| && t[n].Publish? && ErrorsOf(cfg, t, n, name) > 0
    ensures var key, snapshot := name + "_errors", t[n].snapshot;
            && key in snapshot && snapshot[key].value == ErrorsOf(cfg, t, n, name) as real
            && (NeverDelivered(cfg, t, n + 1, key) ==>
                  var v := snapshot[key];
                  && v.name == key && v.kind == Counter && v.labels == map[] && v.unit == ""
                  && v.description == "Error count for metric " + name)
  {
    var key, snapshot := ErrorName(name), t[n].snapshot;
    ErrorsCounted(cfg, t, n, name);
    CounterInSnapshot(cfg, t, n, name);
    SnapshotSummary(cfg, t, n, key);
    LatestIffDelivered(cfg, t, n + 1, key);
    if NeverDelivered(cfg, t, n + 1, key) {
      var other, count :| ErrorName(other) == key && snapshot[key] == ErrorSample(other, count);
      SameCounter(name, other);
    }
  }

  lemma {:induction false} SameCounter(name: string, other: string)
    requires ErrorName(name) == ErrorName(other)
    ensures name == other
  {
    assert ErrorName(name)[..|name|] == name && ErrorName(other)[..|other|] == other;
  }

  /** The central promise: what is published for a metric is its most recent value
      among the cycles that reached publishing, unless the key is taken by the
      error counter of another metric; then it is that count. */
  lemma {:induction false} PublishedIsLatest(
    cfg: CollectorConfig, t: seq<Event>, n: nat, name: string, r: nat, p: nat, v: real)
    requires Legal(cfg, t) && n < |t| && t[n].Publish? && LatestDelivery(cfg, t, r, p, n + 1, name, v)
    ensures name in t[n].snapshot
    ensures !CounterKey(cfg, t, n, name) ==> t[n].snapshot[name] == SampleOf(Find(cfg.metrics, name).value, v)
    ensures forall other :: ErrorsOf(cfg, t, n, other) > 0 && ErrorName(other) == name ==>
              t[n].snapshot[name] == SampleOf(Find(cfg.metrics, name).value, ErrorsOf(cfg, t, n, other) as real)
    ensures t[n].snapshot[name] == SampleOf(Find(cfg.metrics, name).value, v)
       <==> forall other :: ErrorsOf(cfg, t, n, other) > 0 && ErrorName(other) == name ==> ErrorsOf(cfg, t, n, other) as real == v
  {
    SnapshotSummary(cfg, t, n, name);
    LatestIsDelivered(cfg, t, r, p, n + 1, name, v);
    ErroredIsCounterKey(cfg, t, n, name);
    forall other | ErrorsOf(cfg, t, n, other) > 0 && ErrorName(other) == name
      ensures t[n].snapshot[name] == SampleOf(Find(cfg.metrics, name).value, ErrorsOf(cfg, t, n, other) as real)
    {
      ErrorsCounted(cfg, t, n, other);
      CounterInSnapshot(cfg, t, n, other);
    }
  }

  /** No configured metric is named like the error counter of another. */
  ghost predicate NoErrorNames(cfg: CollectorConfig) {
    forall a, b :: Known(cfg, a) && Known(cfg, b) ==> ErrorName(a) != b
  }

  lemma {:induction false} NoClash(cfg: CollectorConfig, t: seq<Event>, n: nat, name: string)
    requires NoErrorNames(cfg) && n <= |t| && Known(cfg, name)
    ensures !CounterKey(cfg, t, n, name)
  {
    forall other | ErrorsOf(cfg, t, n, other) > 0 ensures ErrorName(other) != name {
      ErrorsGrow(cfg, t, 0, n, other);
    }
  }

  /** Where no configured name looks like an error counter, a configured metric is
      in a snapshot exactly if some published read delivered it. */
  lemma {:induction false} PublishedMetrics(cfg: CollectorConfig, t: seq<Event>, n: nat, name: string)
    requires NoErrorNames(cfg) && Known(cfg, name)
    requires Legal(cfg, t) && n < |t| && t[n].Publish?
    ensures name !in t[n].snapshot <==> NeverDelivered(cfg, t, n + 1, name)
  {
    NoClash(cfg, t, n, name);
    SnapshotKeys(cfg, t, n, name);
  }

  /** The first configured metric of a name. */
  predicate FirstNamed(metrics: seq<MetricConfig>, name: string, i: nat) {
    i < |metrics| && metrics[i].name == name && forall j :: 0 <= j < i ==> metrics[j].name != name
  }

  lemma {:induction false} FindIsFirst(metrics: seq<MetricConfig>, name: string) returns (i: nat)
    requires Find(metrics, name).Some?
    ensures FirstNamed(metrics, name, i) && Find(metrics, name) == Some(metrics[i])
  {
    if metrics[0].name == name {
      i := 0;
    } else {
      var j := FindIsFirst(metrics[1..], name);
      i := j + 1;
    }
  }

  /** A sample of this metric with this value: everything else is as configured. */
  predicate Describes(s: MetricValue, m: MetricConfig, v: real) {
    && s.name == m.name && s.value == v && s.kind == m.kind && s.labels == map[]
    && s.description == m.description && s.unit == m.unit
  }

  /** And then with the value the most recent of these reads delivered, described as
      configured. */
  lemma {:induction false} PublishedIsMostRecent(
    cfg: CollectorConfig, t: seq<Event>, n: nat, name: string, r: nat, p: nat, v: real)
    requires NoErrorNames(cfg)
    requires Legal(cfg, t) && n < |t| && t[n].Publish? && LatestDelivery(cfg, t, r, p, n + 1, name, v)
    ensures name in t[n].snapshot && t[n].snapshot[name] == SampleOf(Find(cfg.metrics, name).value, v)
    ensures exists i: nat :: FirstNamed(cfg.metrics, name, i) && Describes(t[n].snapshot[name], cfg.metrics[i], v)
  {
    var i := FindIsFirst(cfg.metrics, name);
    NoClash(cfg, t, n, name);
    PublishedIsLatest(cfg, t, n, name, r, p, v);
  }

  // ----- from one snapshot to a later one -----

  lemma {:induction false} PublishedGrows(cfg: CollectorConfig, t: seq<Event>, m: nat, n: nat, key: string)
    requires Legal(cfg, t) && m <= n <= |t| && key in After(cfg, t, m).published
    ensures key in After(cfg, t, n).published
  {
    if m < n {
      PublishedGrows(cfg, t, m, n - 1, key);
      assert PermittedAt(cfg, t, n - 1);
      CacheIsRetained(cfg, t, n - 1, key);
      StepRetains(cfg, After(cfg, t, n - 1), t[n - 1], key);
    }
  }

  /** A published key stays published, and the error counter of a metric never
      decreases from one snapshot to a later one. */
  lemma {:induction false} SnapshotsGrow(cfg: CollectorConfig, t: seq<Event>, m: nat, n: nat, key: string)
    requires Legal(cfg, t) && m <= n < |t| && t[m].Publish? && t[n].Publish? && key in t[m].snapshot
    ensures key in t[n].snapshot
    ensures CounterKey(cfg, t, m, key) ==> t[m].snapshot[key].value <= t[n].snapshot[key].value
  {
    PublishedGrows(cfg, t, m + 1, n + 1, key);
    if CounterKey(cfg, t, m, key) {
      var name :| ErrorsOf(cfg, t, m, name) > 0 && ErrorName(name) == key;
      ErrorsGrow(cfg, t, m, n, name);
      CounterIsPublished(cfg, t, m, name);
      CounterIsPublished(cfg, t, n, name);
    }
  }
}
