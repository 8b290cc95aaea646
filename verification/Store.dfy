/** The store shared by all collectors (`MetricStore`, src/metrics.rs): each
    collector replaces its own snapshot, exporters read all of them. */
module Store {
  import opened Wrappers
  import opened MetricTypes

  type Labels = map<string, string>

  const COLLECTOR_LABEL := "collector"
  const UNIT_LABEL := "unit"

  // ----- labels -----

  /** The label in force under a key: the unit before the metric's own labels,
      before the collector's name, before the collector's labels, before the
      global ones. */
  function LabelOf(m: MetricValue, name: string, globals: Labels, locals: Labels, key: string): (r: string)
    requires HasLabel(m, globals, locals, key)
  {
    if key == UNIT_LABEL && m.unit != "" then m.unit
    else if key in m.labels then m.labels[key]
    else if key == COLLECTOR_LABEL then name
    else if key in locals then locals[key]
    else globals[key]
  }

  predicate HasLabel(m: MetricValue, globals: Labels, locals: Labels, key: string) {
    (key == UNIT_LABEL && m.unit != "") || key in m.labels || key == COLLECTOR_LABEL || key in locals || key in globals
  }

  /** Is this the metric with its labels resolved and nothing else changed? The
      guard keeps the labels folded in proofs about whole snapshots. */
  ghost predicate Resolves(m: MetricValue, name: string, globals: Labels, locals: Labels, r: MetricValue) {
    && r.name == m.name
    && forall b {:trigger Unfold(b)} :: Unfold(b) ==>
         && r == m.(labels := r.labels)
         && (forall key :: key in r.labels <==> HasLabel(m, globals, locals, key))
         && (forall key :: key in r.labels ==> r.labels[key] == LabelOf(m, name, globals, locals, key))
  }

  /** The labels all samples of a publish start from. */
  function Base(name: string, globals: Labels, locals: Labels): Labels {
    (globals + locals)[COLLECTOR_LABEL := name]
  }

  lemma {:induction false} LabelsResolve(m: MetricValue, name: string, globals: Labels, locals: Labels, labels: Labels)
    requires var own := Base(name, globals, locals) + m.labels;
             labels == if m.unit != "" then own[UNIT_LABEL := m.unit] else own
    ensures Resolves(m, name, globals, locals, m.(labels := labels))
  {
  }

  /** All entries inserted but those of the rest; folded like `Resolves`. */
  ghost predicate InsertedBut(base: Labels, more: Labels, rest: set<string>, r: Labels) {
    forall b {:trigger Unfold(b)} :: Unfold(b) ==> r == base + (more - rest)
  }

  lemma {:induction false} InsertNone(base: Labels, more: Labels)
    ensures InsertedBut(base, more, more.Keys, base)
  {
    assert more - more.Keys == map[];
  }

  lemma {:induction false} InsertStep(base: Labels, more: Labels, rest: set<string>, key: string, r: Labels)
    requires key in rest && rest <= more.Keys && InsertedBut(base, more, rest, r)
    ensures InsertedBut(base, more, rest - {key}, r[key := more[key]])
  {
    assert Unfold(true);
  }

  lemma {:induction false} InsertedInFull(base: Labels, more: Labels, r: Labels)
    requires InsertedBut(base, more, {}, r)
    ensures r == base + more
  {
    assert Unfold(true);
    assert more - {} == more;
  }

  /** Inserts all entries of one label map into another. */
  method InsertAll(base: Labels, more: Labels) returns (r: Labels)
    ensures r == base + more
  {
    r := base;
    var rest := more.Keys;
    InsertNone(base, more);
    while rest != {}
      invariant rest <= more.Keys && InsertedBut(base, more, rest, r)
      decreases |rest|
    {
      var key :| key in rest;
      InsertStep(base, more, rest, key, r);
      r := r[key := more[key]];
      rest := rest - {key};
    }
    InsertedInFull(base, more, r);
  }

  // ----- snapshots -----

  /** The i-th metric is the last one of its name. */
  predicate LastOfName(metrics: seq<MetricValue>, n: nat, i: nat) {
    i < n <= |metrics| && forall j :: i < j < n ==> metrics[j].name != metrics[i].name
  }

  predicate UniqueNames(metrics: seq<MetricValue>) {
    forall i, j :: 0 <= i < j < |metrics| ==> metrics[i].name != metrics[j].name
  }

  /** The sample comes from the last metric of some name. */
  ghost predicate Sourced(metrics: seq<MetricValue>, name: string, globals: Labels, locals: Labels, v: MetricValue) {
    exists i: nat :: LastOfName(metrics, |metrics|, i) && Resolves(metrics[i], name, globals, locals, v)
  }

  /** The i-th metric is in the snapshot. */
  ghost predicate Present(metrics: seq<MetricValue>, i: nat, name: string, globals: Labels, locals: Labels, out: seq<MetricValue>)
    requires i < |metrics|
  {
    exists v :: v in out && Resolves(metrics[i], name, globals, locals, v)
  }

  /** A snapshot holds, in some order, the last metric of every name with its
      labels resolved, and nothing else. */
  ghost predicate IsSnapshot(metrics: seq<MetricValue>, name: string, globals: Labels, locals: Labels, out: seq<MetricValue>) {
    && UniqueNames(out)
    && (forall v {:trigger Sourced(metrics, name, globals, locals, v)} :: v in out ==> Sourced(metrics, name, globals, locals, v))
    && (forall i: nat {:trigger Present(metrics, i, name, globals, locals, out)} ::
          LastOfName(metrics, |metrics|, i) ==> Present(metrics, i, name, globals, locals, out))
  }

  lemma {:induction false} ResolvedIsUnique(
    m: MetricValue, name: string, globals: Labels, locals: Labels, r: MetricValue, s: MetricValue)
    requires Resolves(m, name, globals, locals, r) && Resolves(m, name, globals, locals, s)
    ensures r == s
  {
    assert Unfold(true);
    assert r.labels == s.labels;
  }

  /** Snapshots of the same publish hold the same samples; only their order is
      free. Each configured name is there exactly once. */
  lemma {:induction false} SnapshotIsDetermined(metrics: seq<MetricValue>, name: string, globals: Labels, locals: Labels,
                                                out: seq<MetricValue>, other: seq<MetricValue>, v: MetricValue)
    requires IsSnapshot(metrics, name, globals, locals, out) && IsSnapshot(metrics, name, globals, locals, other)
    ensures v in out <==> v in other
  {
    if v in out {
      SameSample(metrics, name, globals, locals, out, other, v);
    }
    if v in other {
      SameSample(metrics, name, globals, locals, other, out, v);
    }
  }

  lemma {:induction false} SameSample(metrics: seq<MetricValue>, name: string, globals: Labels, locals: Labels,
                                      out: seq<MetricValue>, other: seq<MetricValue>, v: MetricValue)
    requires IsSnapshot(metrics, name, globals, locals, out) && IsSnapshot(metrics, name, globals, locals, other) && v in out
    ensures v in other
  {
    assert Sourced(metrics, name, globals, locals, v);
    var i: nat :| LastOfName(metrics, |metrics|, i) && Resolves(metrics[i], name, globals, locals, v);
    assert Present(metrics, i, name, globals, locals, other);
    var w :| w in other && Resolves(metrics[i], name, globals, locals, w);
    ResolvedIsUnique(metrics[i], name, globals, locals, v, w);
  }

  /** Samples without labels of their own, as the collector task publishes them,
      always carry the name of their collector. */
  lemma {:induction false} CollectorLabelIsSet(metrics: seq<MetricValue>, name: string, globals: Labels, locals: Labels,
                                               out: seq<MetricValue>, v: MetricValue)
    requires IsSnapshot(metrics, name, globals, locals, out) && v in out
    requires forall m :: m in metrics ==> m.labels == map[]
    ensures "collector" in v.labels && v.labels["collector"] == name
    ensures v.unit != "" ==> "unit" in v.labels && v.labels["unit"] == v.unit
  {
    assert Sourced(metrics, name, globals, locals, v);
    var i: nat :| LastOfName(metrics, |metrics|, i) && Resolves(metrics[i], name, globals, locals, v);
    assert Unfold(true);
    assert metrics[i] in metrics;
  }

  /** Which label of a sample is in force, key by key: "unit" for the unit, then the
      metric's own labels, "collector" for the collector's name, the collector's
      labels and the global ones. */
  predicate Labelled(v: MetricValue, m: MetricValue, name: string, globals: Labels, locals: Labels, key: string) {
    if key == "unit" && m.unit != "" then key in v.labels && v.labels[key] == m.unit
    else if key in m.labels then key in v.labels && v.labels[key] == m.labels[key]
    else if key == "collector" then key in v.labels && v.labels[key] == name
    else if key in locals then key in v.labels && v.labels[key] == locals[key]
    else if key in globals then key in v.labels && v.labels[key] == globals[key]
    else key !in v.labels
  }

  /** Every sample of a snapshot comes from a published metric, and only its labels are
      resolved. */
  lemma {:induction false} SampleIsLabelled(metrics: seq<MetricValue>, name: string, globals: Labels, locals: Labels,
                                            out: seq<MetricValue>, v: MetricValue, key: string) returns (i: nat)
    requires IsSnapshot(metrics, name, globals, locals, out) && v in out
    ensures LastOfName(metrics, |metrics|, i) && v == metrics[i].(labels := v.labels)
    ensures Labelled(v, metrics[i], name, globals, locals, key)
  {
    assert Sourced(metrics, name, globals, locals, v);
    i :| LastOfName(metrics, |metrics|, i) && Resolves(metrics[i], name, globals, locals, v);
    assert Unfold(true);
  }

  // ----- the store as a history of operations -----

  datatype Operation =
    | Published(collector: string, metrics: seq<MetricValue>, globals: Labels, locals: Labels, out: seq<MetricValue>)
    | Removed(collector: string)

  ghost predicate Genuine(op: Operation) {
    op.Published? ==> IsSnapshot(op.metrics, op.collector, op.globals, op.locals, op.out)
  }

  function Perform(state: map<string, seq<MetricValue>>, op: Operation): map<string, seq<MetricValue>> {
    match op
    case Published(c, _, _, _, out) => state[c := out]
    case Removed(c) => state - {c}
  }

  function Replay(ops: seq<Operation>, n: nat): map<string, seq<MetricValue>>
    requires n <= |ops|
  {
    if n == 0 then map[] else Perform(Replay(ops, n - 1), ops[n - 1])
  }

  lemma {:induction false} ReplayPrefix(ops: seq<Operation>, more: seq<Operation>, n: nat)
    requires n <= |ops| && ops <= more
    ensures Replay(ops, n) == Replay(more, n)
  {
    if n > 0 {
      ReplayPrefix(ops, more, n - 1);
    }
  }

  lemma {:induction false} ReplayExtended(ops: seq<Operation>, op: Operation)
    ensures Replay(ops + [op], |ops| + 1) == Perform(Replay(ops, |ops|), op)
  {
    ReplayPrefix(ops, ops + [op], |ops|);
  }

  /** Every value in the map is the resolved form of the last metric of its name
      among the first n; `origin` says which one. */
  ghost predicate Deduped(metrics: seq<MetricValue>, n: nat, name: string, globals: Labels, locals: Labels,
                          deduped: map<string, MetricValue>, origin: map<string, nat>)
    requires n <= |metrics|
  {
    && deduped.Keys == origin.Keys
    && (forall k :: k in origin ==>
          && LastOfName(metrics, n, origin[k]) && metrics[origin[k]].name == k
          && Resolves(metrics[origin[k]], name, globals, locals, deduped[k]))
    && (forall i :: 0 <= i < n ==> metrics[i].name in deduped)
  }

  lemma {:induction false} DedupStep(metrics: seq<MetricValue>, n: nat, name: string, globals: Labels, locals: Labels,
                                     deduped: map<string, MetricValue>, origin: map<string, nat>, v: MetricValue)
    requires n < |metrics| && Deduped(metrics, n, name, globals, locals, deduped, origin)
    requires Resolves(metrics[n], name, globals, locals, v)
    ensures Deduped(metrics, n + 1, name, globals, locals, deduped[v.name := v], origin[v.name := n])
  {
    forall k | k in origin && k != v.name ensures LastOfName(metrics, n + 1, origin[k]) {
      assert LastOfName(metrics, n, origin[k]);
    }
  }

  // ----- walking a map -----

  /** Every key once. */
  ghost predicate Enumerates(order: seq<string>, keys: set<string>) {
    (forall i, j :: 0 <= i < j < |order| ==> order[i] != order[j]) && (forall c :: c in order <==> c in keys)
  }

  /** Every key but the rest, once; folded like `Resolves`. */
  ghost predicate Listed(order: seq<string>, keys: set<string>, rest: set<string>) {
    forall b {:trigger Unfold(b)} :: Unfold(b) ==> Enumerates(order, keys - rest)
  }

  lemma {:induction false} ListNone(order: seq<string>, keys: set<string>)
    requires order == []
    ensures Listed(order, keys, keys)
  {
  }

  lemma {:induction false} ListStep(order: seq<string>, keys: set<string>, rest: set<string>, k: string)
    requires Listed(order, keys, rest) && k in rest && rest <= keys
    ensures Listed(order + [k], keys, rest - {k})
  {
    assert Unfold(true);
    assert keys - (rest - {k}) == (keys - rest) + {k};
    EnumerateNext(order, keys - rest, k);
  }

  lemma {:induction false} EnumerateNext(order: seq<string>, keys: set<string>, k: string)
    requires Enumerates(order, keys) && k !in keys
    ensures Enumerates(order + [k], keys + {k})
  {
  }

  lemma {:induction false} ListAll(order: seq<string>, keys: set<string>)
    requires Listed(order, keys, {})
    ensures Enumerates(order, keys)
  {
    assert Unfold(true);
    assert keys - {} == keys;
  }

  /** The values under these keys, in this order; folded like `Resolves`. */
  ghost predicate Picked(deduped: map<string, MetricValue>, order: seq<string>, out: seq<MetricValue>) {
    forall b {:trigger Unfold(b)} :: Unfold(b) ==>
      |out| == |order| && forall j :: 0 <= j < |order| ==> order[j] in deduped && out[j] == deduped[order[j]]
  }

  lemma {:induction false} PickStep(deduped: map<string, MetricValue>, order: seq<string>, out: seq<MetricValue>, k: string)
    requires Picked(deduped, order, out) && k in deduped
    ensures Picked(deduped, order + [k], out + [deduped[k]])
  {
    assert Unfold(true);
  }

  lemma {:induction false} DedupedIsSnapshot(metrics: seq<MetricValue>, name: string, globals: Labels, locals: Labels,
                                             deduped: map<string, MetricValue>, origin: map<string, nat>,
                                             order: seq<string>, out: seq<MetricValue>)
    requires Deduped(metrics, |metrics|, name, globals, locals, deduped, origin)
    requires Picked(deduped, order, out) && Enumerates(order, deduped.Keys)
    ensures IsSnapshot(metrics, name, globals, locals, out)
  {
    assert Unfold(true);
    forall j | 0 <= j < |order|
      ensures out[j].name == order[j] && Sourced(metrics, name, globals, locals, out[j])
    {
      var i := origin[order[j]];
      assert LastOfName(metrics, |metrics|, i) && Resolves(metrics[i], name, globals, locals, out[j]);
    }
    forall i: nat | LastOfName(metrics, |metrics|, i) ensures Present(metrics, i, name, globals, locals, out) {
      var k := metrics[i].name;
      assert LastOfName(metrics, |metrics|, origin[k]) && metrics[origin[k]].name == k;
      assert origin[k] == i;
      var j :| 0 <= j < |order| && order[j] == k;
      assert out[j] in out;
    }
  }

  /** The shared store. Its operations are atomic: a concurrent run is some
      sequence of calls. */
  class MetricStore {
    var inner: map<string, seq<MetricValue>>
    ghost var history: seq<Operation>

    ghost predicate Valid()
      reads this
    {
      && inner == Replay(history, |history|)
      && forall i :: 0 <= i < |history| ==> Genuine(history[i])
    }

    constructor ()
      ensures Valid() && history == [] && inner == map[]
    {
      inner := map[];
      history := [];
    }

    /** The metric with the labels to publish. */
    method Label(m: MetricValue, base: Labels, name: string, ghost globals: Labels, ghost locals: Labels) returns (r: MetricValue)
      requires base == Base(name, globals, locals)
      ensures Resolves(m, name, globals, locals, r)
    {
      var labels := InsertAll(base, m.labels);
      if m.unit != "" {
        labels := labels[UNIT_LABEL := m.unit];
      }
      LabelsResolve(m, name, globals, locals, labels);
      r := m.(labels := labels);
    }

    method Publish(name: string, metrics: seq<MetricValue>, globals: Labels, locals: Labels)
      requires Valid()
      modifies this
      ensures Valid()
      ensures name in inner && IsSnapshot(metrics, name, globals, locals, inner[name])
      ensures inner == old(inner)[name := inner[name]]
      ensures history == old(history) + [Published(name, metrics, globals, locals, inner[name])]
    {
      var base := InsertAll(globals, locals);
      base := base[COLLECTOR_LABEL := name];
      var deduped: map<string, MetricValue> := map[];
      ghost var origin: map<string, nat> := map[];
      for i := 0 to |metrics|
        invariant Deduped(metrics, i, name, globals, locals, deduped, origin)
        invariant inner == old(inner) && history == old(history)
      {
        var v := Label(metrics[i], base, name, globals, locals);
        DedupStep(metrics, i, name, globals, locals, deduped, origin, v);
        deduped := deduped[v.name := v];
        origin := origin[v.name := i];
      }
      var merged := Values(metrics, name, globals, locals, deduped, origin);
      inner := inner[name := merged];
      ReplayExtended(history, Published(name, metrics, globals, locals, merged));
      history := history + [Published(name, metrics, globals, locals, merged)];
    }

    /** The values of the map, in any order. */
    method Values(ghost metrics: seq<MetricValue>, ghost name: string, ghost globals: Labels, ghost locals: Labels,
                  deduped: map<string, MetricValue>, ghost origin: map<string, nat>) returns (out: seq<MetricValue>)
      requires Deduped(metrics, |metrics|, name, globals, locals, deduped, origin)
      ensures IsSnapshot(metrics, name, globals, locals, out)
    {
      out := [];
      ghost var order: seq<string> := [];
      var rest := deduped.Keys;
      ListNone(order, rest);
      while rest != {}
        invariant rest <= deduped.Keys && Listed(order, deduped.Keys, rest) && Picked(deduped, order, out)
        decreases |rest|
      {
        var k :| k in rest;
        ListStep(order, deduped.Keys, rest, k);
        PickStep(deduped, order, out, k);
        out := out + [deduped[k]];
        order := order + [k];
        rest := rest - {k};
      }
      ListAll(order, deduped.Keys);
      DedupedIsSnapshot(metrics, name, globals, locals, deduped, origin, order, out);
    }

    method RemoveCollector(name: string) returns (found: bool)
      requires Valid()
      modifies this
      ensures Valid()
      ensures found == (name in old(inner)) && inner == old(inner) - {name}
      ensures history == old(history) + [Removed(name)]
    {
      found := name in inner;
      inner := inner - {name};
      ReplayExtended(history, Removed(name));
      history := history + [Removed(name)];
    }

    /** What the collector published last, unless it was removed since or never
        published. */
    method MetricsFor(name: string) returns (r: seq<MetricValue>)
      requires Valid()
      ensures forall i: nat :: LastOf(history, i, |history|, name) ==>
                if history[i].Removed? then r == []
                else r == history[i].out && IsSnapshot(history[i].metrics, name, history[i].globals, history[i].locals, r)
      ensures NoneOf(history, |history|, name) ==> r == []
    {
      r := if name in inner then inner[name] else [];
      forall i: nat | LastOf(history, i, |history|, name)
        ensures if history[i].Removed? then r == []
                else r == history[i].out && IsSnapshot(history[i].metrics, name, history[i].globals, history[i].locals, r)
      {
        EntryIsLastSnapshot(history, i, |history|, name);
        assert Genuine(history[i]);
      }
      if NoneOf(history, |history|, name) {
        NoEntryBeforeFirst(history, |history|, name);
      }
    }

    /** All snapshots one after the other, the collectors in any order. */
    method AllMetricsFlat() returns (out: seq<MetricValue>)
      ensures IsFlat(inner, out)
    {
      out := [];
      ghost var order: seq<string> := [];
      var rest := inner.Keys;
      ListNone(order, rest);
      while rest != {}
        invariant rest <= inner.Keys && Listed(order, inner.Keys, rest)
        invariant forall j :: 0 <= j < |order| ==> order[j] in inner
        invariant out == Flatten(inner, order, |order|)
        decreases |rest|
      {
        var c :| c in rest;
        ListStep(order, inner.Keys, rest, c);
        FlattenExtended(inner, order, c, |order|);
        out := out + inner[c];
        order := order + [c];
        rest := rest - {c};
      }
      ListAll(order, inner.Keys);
    }
  }

  /** All snapshots one after the other, each once. */
  ghost predicate IsFlat(inner: map<string, seq<MetricValue>>, out: seq<MetricValue>) {
    exists order :: Enumerates(order, inner.Keys) && out == Flatten(inner, order, |order|)
  }

  function Flatten(inner: map<string, seq<MetricValue>>, order: seq<string>, n: nat): seq<MetricValue>
    requires n <= |order| && forall j :: 0 <= j < |order| ==> order[j] in inner
  {
    if n == 0 then [] else Flatten(inner, order, n - 1) + inner[order[n - 1]]
  }

  lemma {:induction false} FlattenExtended(inner: map<string, seq<MetricValue>>, order: seq<string>, c: string, n: nat)
    requires c in inner && n <= |order| && forall j :: 0 <= j < |order| ==> order[j] in inner
    ensures Flatten(inner, order + [c], n) == Flatten(inner, order, n)
    ensures n == |order| ==> Flatten(inner, order + [c], n + 1) == Flatten(inner, order, n) + inner[c]
  {
    if n > 0 {
      FlattenExtended(inner, order, c, n - 1);
    }
  }

  // ----- any interleaving -----

  /** Operation i is the last one before n that concerns the collector. */
  predicate LastOf(ops: seq<Operation>, i: nat, n: nat, c: string) {
    i < n <= |ops| && ops[i].collector == c && forall j :: i < j < n ==> ops[j].collector != c
  }

  predicate NoneOf(ops: seq<Operation>, n: nat, c: string)
    requires n <= |ops|
  {
    forall j :: 0 <= j < n ==> ops[j].collector != c
  }

  /** Whatever the collectors do and in whatever order their calls interleave, the
      entry of one collector is the snapshot of its last publish, and absent if
      it has not published since its last removal. */
  lemma {:induction false} EntryIsLastSnapshot(ops: seq<Operation>, i: nat, n: nat, c: string)
    requires LastOf(ops, i, n, c)
    ensures c in Replay(ops, n) <==> ops[i].Published?
    ensures ops[i].Published? ==> Replay(ops, n)[c] == ops[i].out
  {
    if i < n - 1 {
      EntryIsLastSnapshot(ops, i, n - 1, c);
    }
  }

  lemma {:induction false} NoEntryBeforeFirst(ops: seq<Operation>, n: nat, c: string)
    requires n <= |ops| && NoneOf(ops, n, c)
    ensures c !in Replay(ops, n)
  {
    if n > 0 {
      NoEntryBeforeFirst(ops, n - 1, c);
    }
  }

  /** The calls of one collector, in their order. */
  function CallsOf(ops: seq<Operation>, n: nat, c: string): seq<Operation>
    requires n <= |ops|
  {
    if n == 0 then []
    else CallsOf(ops, n - 1, c) + if ops[n - 1].collector == c then [ops[n - 1]] else []
  }

  /** What the store holds for a collector depends on its own calls only. */
  function EntryAfter(calls: seq<Operation>): (r: set<seq<MetricValue>>) {
    if calls == [] || calls[|calls| - 1].Removed? then {} else {calls[|calls| - 1].out}
  }

  function Entry(state: map<string, seq<MetricValue>>, c: string): set<seq<MetricValue>> {
    if c in state then {state[c]} else {}
  }

  lemma {:induction false} EntryFromOwnCalls(ops: seq<Operation>, n: nat, c: string)
    requires n <= |ops|
    ensures Entry(Replay(ops, n), c) == EntryAfter(CallsOf(ops, n, c))
  {
    if n > 0 {
      EntryFromOwnCalls(ops, n - 1, c);
    }
  }

  /** Two interleavings of the same calls of every collector leave the same
      store. */
  lemma {:induction false} InterleavingIsIrrelevant(ops: seq<Operation>, other: seq<Operation>)
    requires forall c :: CallsOf(ops, |ops|, c) == CallsOf(other, |other|, c)
    ensures Replay(ops, |ops|) == Replay(other, |other|)
  {
    var a, b := Replay(ops, |ops|), Replay(other, |other|);
    forall c ensures c in a <==> c in b ensures c in a && c in b ==> a[c] == b[c] {
      EntryFromOwnCalls(ops, |ops|, c);
      EntryFromOwnCalls(other, |other|, c);
      assert Entry(a, c) == Entry(b, c);
      if c in a {
        assert a[c] in Entry(b, c);
      } else {
        assert Entry(b, c) == {};
      }
    }
  }
}
