/** What every batch guarantees: each slot is written once, every value agrees
    with reading that metric alone, when nothing is lost, and how many calls
    are made (src/reader/modbus/batch.rs:170-287). */
module BatchTheorems {
  import opened Wrappers
  import opened MetricTypes
  import opened Decoder
  import opened Bus
  import opened Coalesce
  import opened BatchRead

  // ----- scatter: each slot is written exactly once -----

  /** How often slot i is written. */
  function Times(writes: seq<(nat, Outcome)>, i: nat): nat {
    if writes == [] then 0 else Times(writes[..|writes| - 1], i) + if writes[|writes| - 1].0 == i then 1 else 0
  }

  /** How often slot i belongs to an item. */
  function Holds(items: seq<Item>, i: nat): nat {
    if items == [] then 0 else Holds(items[..|items| - 1], i) + if items[|items| - 1].idx == i then 1 else 0
  }

  lemma {:induction false} TimesConcat(a: seq<(nat, Outcome)>, b: seq<(nat, Outcome)>, i: nat)
    ensures Times(a + b, i) == Times(a, i) + Times(b, i)
  {
    if b == [] {
      assert a + b == a;
    } else {
      TimesConcat(a, b[..|b| - 1], i);
      assert (a + b)[..|a + b| - 1] == a + b[..|b| - 1];
    }
  }

  lemma {:induction false} HoldsConcat(a: seq<Item>, b: seq<Item>, i: nat)
    ensures Holds(a + b, i) == Holds(a, i) + Holds(b, i)
  {
    if b == [] {
      assert a + b == a;
    } else {
      HoldsConcat(a, b[..|b| - 1], i);
      assert (a + b)[..|a + b| - 1] == a + b[..|b| - 1];
    }
  }

  lemma {:induction false} SinglesTouch(bus: Bus, n: nat, items: seq<Item>, k: nat, i: nat)
    requires k <= |items|
    ensures Times(SinglesTo(bus, n, items, k).writes, i) == Holds(items[..k], i)
  {
    if k > 0 {
      SinglesTouch(bus, n, items, k - 1, i);
      assert items[..k][..k - 1] == items[..k - 1];
      var before, run := SinglesTo(bus, n, items, k - 1).writes, SinglesTo(bus, n, items, k).writes;
      assert run[..|run| - 1] == before;
    }
  }

  lemma {:induction false} DecodedTouch(regs: seq<word>, start: word, items: seq<Item>, k: nat, i: nat)
    requires k <= |items|
    ensures Times(DecodedTo(regs, start, items, k).writes, i) == Holds(items[..k], i)
  {
    if k > 0 {
      DecodedTouch(regs, start, items, k - 1, i);
      assert items[..k][..k - 1] == items[..k - 1];
      var before, run := DecodedTo(regs, start, items, k - 1).writes, DecodedTo(regs, start, items, k).writes;
      assert run[..|run| - 1] == before;
    }
  }

  lemma {:induction false} RangeTouches(bus: Bus, n: nat, kind: RegisterType, r: MergedRange, i: nat)
    ensures Times(RangeRun(bus, n, kind, r).writes, i) == Holds(r.members, i)
  {
    assert r.members[..|r.members|] == r.members;
    if Accepts(bus, n, RangeRequest(kind, r)) {
      var regs := Registers(bus, kind, r.start, r.Count());
      DecodedTouch(regs, r.start, r.members, |r.members|, i);
      TimesConcat([], DecodedTo(regs, r.start, r.members, |r.members|).writes, i);
    } else {
      SinglesTouch(bus, n + 1, r.members, |r.members|, i);
      TimesConcat([], SinglesTo(bus, n + 1, r.members, |r.members|).writes, i);
    }
  }

  lemma {:induction false} NextRangeHolds(ranges: seq<MergedRange>, k: nat, i: nat)
    requires k < |ranges|
    ensures Holds(Flatten(ranges[..k + 1]), i) == Holds(Flatten(ranges[..k]), i) + Holds(ranges[k].members, i)
  {
    assert ranges[..k + 1][..k] == ranges[..k];
    HoldsConcat(Flatten(ranges[..k]), ranges[k].members, i);
  }

  lemma {:induction false} ChainTouches(runs: seq<Run>, ranges: seq<MergedRange>, k: nat, i: nat)
    requires k <= |runs| == |ranges|
    requires forall j :: 0 <= j < k ==> Times(runs[j].writes, i) == Holds(ranges[j].members, i)
    ensures Times(Chain(runs, k).writes, i) == Holds(Flatten(ranges[..k]), i)
  {
    if k > 0 {
      ChainTouches(runs, ranges, k - 1, i);
      TimesConcat(Chain(runs, k - 1).writes, runs[k - 1].writes, i);
      NextRangeHolds(ranges, k - 1, i);
    }
  }

  lemma {:induction false} InsertKeepsSlots(items: seq<Item>, x: Item, i: nat)
    ensures Holds(InsertByAddr(items, x), i) == Holds(items, i) + if x.idx == i then 1 else 0
  {
    if items == [] || items[|items| - 1].addr <= x.addr {
      assert (items + [x])[..|items|] == items;
    } else {
      var front, last := items[..|items| - 1], items[|items| - 1];
      InsertKeepsSlots(front, x, i);
      assert InsertByAddr(items, x)[..|items|] == InsertByAddr(front, x);
    }
  }

  lemma {:induction false} HoldsNext(items: seq<Item>, n: nat, i: nat)
    requires n < |items|
    ensures Holds(items[..n + 1], i) == Holds(items[..n], i) + if items[n].idx == i then 1 else 0
  {
    assert items[..n + 1][..n] == items[..n];
  }

  lemma {:induction false} SortKeepsSlots(items: seq<Item>, n: nat, i: nat)
    requires n <= |items|
    ensures Holds(SortTo(items, n), i) == Holds(items[..n], i)
  {
    if n > 0 {
      SortKeepsSlots(items, n - 1, i);
      InsertKeepsSlots(SortTo(items, n - 1), items[n - 1], i);
      HoldsNext(items, n - 1, i);
    }
  }

  lemma {:induction false} RangesHold(metrics: seq<MetricConfig>, kind: RegisterType, i: nat)
    ensures Holds(Flatten(RangesFor(metrics, kind)), i) == Holds(Pick(metrics, |metrics|, ByRegister(kind)), i)
  {
    var picked := Pick(metrics, |metrics|, ByRegister(kind));
    RangesForAreRanges(metrics, kind);
    SortKeepsSlots(picked, |picked|, i);
    assert picked[..|picked|] == picked;
  }

  lemma {:induction false} AllRangesTouch(bus: Bus, n: nat, kind: RegisterType, ranges: seq<MergedRange>, i: nat)
    ensures Times(RangesTo(bus, n, kind, ranges, |ranges|).writes, i) == Holds(Flatten(ranges), i)
  {
    var runs := RangeRuns(bus, n, kind, ranges, |ranges|);
    forall j | 0 <= j < |ranges| ensures Times(runs[j].writes, i) == Holds(ranges[j].members, i) {
      RunAt(bus, n, kind, ranges, j, |ranges|);
      RangeTouches(bus, CallOf(bus, n, kind, ranges, j), kind, ranges[j], i);
    }
    ChainTouches(runs, ranges, |ranges|, i);
    assert ranges[..|ranges|] == ranges;
  }

  lemma {:induction false} PickHolds(metrics: seq<MetricConfig>, n: nat, c: Class, i: nat)
    requires n <= |metrics|
    ensures Holds(Pick(metrics, n, c), i) == if i < n && ClassOf(metrics[i]) == c then 1 else 0
  {
    if n > 0 {
      PickHolds(metrics, n - 1, c, i);
      var before := Pick(metrics, n - 1, c);
      assert (before + [ItemOf(n - 1, metrics[n - 1])])[..|before|] == before;
    }
  }

  lemma {:induction false} UnaddressedTouch(metrics: seq<MetricConfig>, n: nat, i: nat)
    requires n <= |metrics|
    ensures Times(UnaddressedTo(metrics, n).writes, i) == if i < n && ClassOf(metrics[i]) == Unaddressed then 1 else 0
  {
    if n > 0 {
      UnaddressedTouch(metrics, n - 1, i);
      var w: (nat, Outcome) := (n - 1, Err(NoAddress));
      TimesConcat(UnaddressedTo(metrics, n - 1).writes, [w], i);
      assert [w][..0] == [];
    }
  }

  /** The run of a class writes to slot i once if metric i is of that class, and
      otherwise never. */
  lemma {:induction false} ClassTouches(bus: Bus, n: nat, metrics: seq<MetricConfig>, c: Class, i: nat)
    ensures Times(ClassRun(bus, n, metrics, c).writes, i) == if i < |metrics| && ClassOf(metrics[i]) == c then 1 else 0
  {
    match c
    case Unaddressed =>
      UnaddressedTouch(metrics, |metrics|, i);
    case ByRegister(kind) =>
      AllRangesTouch(bus, n, kind, RangesFor(metrics, kind), i);
      RangesHold(metrics, kind, i);
      PickHolds(metrics, |metrics|, c, i);
    case ByBit =>
      var bits := Pick(metrics, |metrics|, ByBit);
      SinglesTouch(bus, n, bits, |bits|, i);
      assert bits[..|bits|] == bits;
      PickHolds(metrics, |metrics|, c, i);
  }

  function Total(counts: seq<nat>, k: nat): nat
    requires k <= |counts|
  {
    if k == 0 then 0 else Total(counts, k - 1) + counts[k - 1]
  }

  lemma {:induction false} ChainTimes(runs: seq<Run>, counts: seq<nat>, k: nat, i: nat)
    requires k <= |runs| == |counts| && forall j :: 0 <= j < k ==> Times(runs[j].writes, i) == counts[j]
    ensures Times(Chain(runs, k).writes, i) == Total(counts, k)
  {
    if k > 0 {
      ChainTimes(runs, counts, k - 1, i);
      TimesConcat(Chain(runs, k - 1).writes, runs[k - 1].writes, i);
    }
  }

  /** Every metric is of exactly one class that is served. */
  lemma {:induction false} ServedOnce(counts: seq<nat>, c: Class, k: nat)
    requires k == |counts| == CLASSES && forall j :: 0 <= j < k ==> counts[j] == if Serve(j) == c then 1 else 0
    requires c == Unaddressed || c == ByRegister(Holding) || c == ByRegister(Input) || c == ByBit
    ensures Total(counts, k) == 1
  {
    assert Total(counts, k - 1) == Total(counts, k - 2) + counts[k - 2];
    assert Total(counts, k - 2) == Total(counts, k - 3) + counts[k - 3];
    assert Total(counts, k - 3) == Total(counts, k - 4) + counts[k - 4];
    assert Total(counts, k - 4) == 0;
  }

  lemma {:induction false} ServedClass(m: MetricConfig)
    ensures var c := ClassOf(m); c == Unaddressed || c == ByRegister(Holding) || c == ByRegister(Input) || c == ByBit
  {
    match KindOf(m)
    case Holding =>
    case Input =>
    case Coil =>
    case Discrete =>
  }

  lemma {:induction false} ServedNever(counts: seq<nat>, k: nat)
    requires k <= |counts| && forall j :: 0 <= j < k ==> counts[j] == 0
    ensures Total(counts, k) == 0
  {
    if k > 0 {
      ServedNever(counts, k - 1);
    }
  }

  /** Scatter: through grouping, sorting and merging, every result slot is
      written exactly once, and no other slot is. */
  lemma {:induction false} EachSlotWrittenOnce(bus: Bus, n: nat, metrics: seq<MetricConfig>, i: nat)
    ensures Times(BatchRun(bus, n, metrics).writes, i) == if i < |metrics| then 1 else 0
  {
    var runs := ClassRuns(bus, n, metrics, CLASSES);
    var counts: seq<nat> := seq(CLASSES, j requires 0 <= j < CLASSES =>
      if i < |metrics| && ClassOf(metrics[i]) == Serve(j) then 1 else 0);
    forall j | 0 <= j < |runs| ensures Times(runs[j].writes, i) == counts[j] {
      StageAt(bus, n, metrics, j, CLASSES);
      ClassTouches(bus, StageOf(bus, n, metrics, j), metrics, Serve(j), i);
    }
    ChainTimes(runs, counts, |runs|, i);
    if i < |metrics| {
      ServedClass(metrics[i]);
      ServedOnce(counts, ClassOf(metrics[i]), |runs|);
    } else {
      ServedNever(counts, |runs|);
    }
  }

  /** A touched slot holds the outcome of one of the writes. */
  lemma {:induction false} TouchedIsFilled(slots: seq<Option<Outcome>>, writes: seq<(nat, Outcome)>, i: nat) returns (k: nat)
    requires i < |slots| && Times(writes, i) > 0
    ensures k < |writes| && writes[k].0 == i && Apply(slots, writes)[i] == Some(writes[k].1)
  {
    var last := |writes| - 1;
    if writes[last].0 == i {
      k := last;
    } else {
      k := TouchedIsFilled(slots, writes[..last], i);
    }
  }

  /** Every result is the outcome of a write to its own slot; the "not
      processed" default is never used. */
  lemma {:induction false} ResultIsWritten(bus: Bus, n: nat, metrics: seq<MetricConfig>, i: nat) returns (k: nat)
    requires i < |metrics|
    ensures var writes := BatchRun(bus, n, metrics).writes;
            k < |writes| && writes[k] == (i, Results(bus, n, metrics)[i])
  {
    EachSlotWrittenOnce(bus, n, metrics, i);
    k := TouchedIsFilled(EmptySlots(|metrics|), BatchRun(bus, n, metrics).writes, i);
  }

  // ----- what each write holds -----

  /** Decoding a member out of the registers of its range gives its own
      registers' value, unless they run past the end of the response. */
  lemma {:induction false} DecodedIsTrue(bus: Bus, kind: RegisterType, start: word, count: nat, m: MetricConfig)
    requires m.address.Some? && KindOf(m) == kind && IsRegister(kind) && start <= m.address.value
    ensures DecodeMetric(m, Registers(bus, kind, start, count), start)
         == if m.address.value + RegistersNeeded(m.dataType) <= start + count then TrueReading(bus, m) else Err(OutOfBounds)
  {
    var from, need := m.address.value - start, RegistersNeeded(m.dataType);
    if from + need <= count {
      var a, b := Registers(bus, kind, start, count), Registers(bus, kind, m.address.value, need);
      forall j | 0 <= j < need ensures a[from..from + need][j] == b[j] {
        assert a[from..from + need][j] == a[from + j] == bus.contents(kind, start + (from + j));
      }
      assert a[from..from + need] == b;
    }
  }

  lemma {:induction false} TrueReadingIsOk(bus: Bus, m: MetricConfig)
    requires m.address.Some?
    ensures TrueReading(bus, m).Ok?
  {}

  // ----- which metrics a device cannot cost their value -----

  /** The metric could be read alone at any time. */
  ghost predicate AlwaysReadable(bus: Bus, m: MetricConfig) {
    m.address.Some? && forall n: nat :: Accepts(bus, n, SingleRequest(m))
  }

  ghost predicate AnswersAll(bus: Bus) {
    forall n: nat, req :: bus.answers(n, req)
  }

  /** Does the metric keep clear of register 65535? Bits are never merged. */
  predicate BelowLastRegister(m: MetricConfig) {
    m.address.Some? && IsRegister(KindOf(m)) ==> m.address.value + RegistersNeeded(m.dataType) <= 0xFFFF
  }

  predicate HoldsMember(r: MergedRange, i: nat) {
    exists j :: 0 <= j < |r.members| && r.members[j].idx == i
  }

  /** Is the metric merged into a range that is empty by saturation, one that
      starts at register 65535? Its read is always rejected. */
  predicate InEmptyRange(metrics: seq<MetricConfig>, kind: RegisterType, i: nat) {
    var ranges := RangesFor(metrics, kind);
    exists k :: 0 <= k < |ranges| && ranges[k].Count() == 0 && HoldsMember(ranges[k], i)
  }

  /** The positions of all metrics in empty ranges. */
  function Spared(metrics: seq<MetricConfig>): set<nat> {
    set i: nat | i < |metrics| && InEmptyRange(metrics, KindOf(metrics[i]), i)
  }

  /** The condition a caller can check: the metric keeps clear of register 65535, or
      merging leaves it in an empty range. */
  predicate Safe(metrics: seq<MetricConfig>, i: nat)
    requires i < |metrics|
  {
    BelowLastRegister(metrics[i]) || i in Spared(metrics)
  }

  /** The members of the range are spared exactly if the range is empty. */
  predicate Settled(r: MergedRange, spared: set<nat>) {
    forall j :: 0 <= j < |r.members| ==> (r.members[j].idx in spared <==> r.Count() == 0)
  }

  predicate AllSettled(ranges: seq<MergedRange>, spared: set<nat>) {
    forall k :: 0 <= k < |ranges| ==> Settled(ranges[k], spared)
  }

  lemma {:induction false} HeldByRange(items: seq<Item>, j: nat)
    requires j < |items|
    ensures Holds(items, items[j].idx) > 0
  {
    if j < |items| - 1 {
      HeldByRange(items[..|items| - 1], j);
    }
  }

  lemma {:induction false} HeldUpTo(ranges: seq<MergedRange>, k: nat, n: nat, i: nat)
    requires k < n <= |ranges| && Holds(ranges[k].members, i) > 0
    ensures Holds(Flatten(ranges[..n]), i) > 0
  {
    NextRangeHolds(ranges, n - 1, i);
    if k < n - 1 {
      HeldUpTo(ranges, k, n - 1, i);
    }
  }

  lemma {:induction false} HeldTwice(ranges: seq<MergedRange>, k: nat, l: nat, n: nat, i: nat)
    requires k < l < n <= |ranges| && Holds(ranges[k].members, i) > 0 && Holds(ranges[l].members, i) > 0
    ensures Holds(Flatten(ranges[..n]), i) > 1
  {
    NextRangeHolds(ranges, n - 1, i);
    if l < n - 1 {
      HeldTwice(ranges, k, l, n - 1, i);
    } else {
      HeldUpTo(ranges, k, n - 1, i);
    }
  }

  /** No metric is in two ranges. */
  lemma {:induction false} OneRangeEach(metrics: seq<MetricConfig>, kind: RegisterType, k: nat, l: nat, i: nat)
    requires k < |RangesFor(metrics, kind)| && l < |RangesFor(metrics, kind)|
    requires HoldsMember(RangesFor(metrics, kind)[k], i) && HoldsMember(RangesFor(metrics, kind)[l], i)
    ensures k == l
  {
    var ranges := RangesFor(metrics, kind);
    var a :| 0 <= a < |ranges[k].members| && ranges[k].members[a].idx == i;
    var b :| 0 <= b < |ranges[l].members| && ranges[l].members[b].idx == i;
    HeldByRange(ranges[k].members, a);
    HeldByRange(ranges[l].members, b);
    RangesHold(metrics, kind, i);
    PickHolds(metrics, |metrics|, ByRegister(kind), i);
    assert ranges[..|ranges|] == ranges;
    if k < l {
      HeldTwice(ranges, k, l, |ranges|, i);
    } else if l < k {
      HeldTwice(ranges, l, k, |ranges|, i);
    }
  }

  lemma {:induction false} RangeIsSettled(metrics: seq<MetricConfig>, kind: RegisterType, k: nat)
    requires k < |RangesFor(metrics, kind)| && IsRegister(kind)
    ensures Settled(RangesFor(metrics, kind)[k], Spared(metrics))
  {
    var ranges := RangesFor(metrics, kind);
    var r := ranges[k];
    RangesForAreRanges(metrics, kind);
    assert RangeOf(r, metrics, kind);
    forall j | 0 <= j < |r.members| ensures r.members[j].idx in Spared(metrics) <==> r.Count() == 0 {
      var i := r.members[j].idx;
      assert IsItemOf(r.members[j], metrics, ByRegister(kind));
      assert HoldsMember(r, i);
      if i in Spared(metrics) {
        var l :| 0 <= l < |ranges| && ranges[l].Count() == 0 && HoldsMember(ranges[l], i);
        OneRangeEach(metrics, kind, k, l, i);
      }
    }
  }

  lemma {:induction false} RangesAreSettled(metrics: seq<MetricConfig>, kind: RegisterType)
    requires IsRegister(kind)
    ensures AllSettled(RangesFor(metrics, kind), Spared(metrics))
  {
    forall k | 0 <= k < |RangesFor(metrics, kind)| ensures Settled(RangesFor(metrics, kind)[k], Spared(metrics)) {
      RangeIsSettled(metrics, kind, k);
    }
  }

  /** A write is right: it goes to the slot of an existing metric; a value it carries
      is the value reading that metric alone gives. A metric that is always
      readable alone and is safe gets its value; one that is not safe gets none
      from a device that answers everything. Folded, to be passed on. */
  ghost predicate RightWrite(bus: Bus, metrics: seq<MetricConfig>, spared: set<nat>, w: (nat, Outcome)) {
    forall b {:trigger Unfold(b)} :: Unfold(b) ==>
      && w.0 < |metrics|
      && w.1 != Err(NotProcessed)
      && var m := metrics[w.0];
      if m.address.None? then w.1 == Err(NoAddress)
      else
        && (w.1.Ok? ==> w.1 == TrueReading(bus, m))
        && (AlwaysReadable(bus, m) && (BelowLastRegister(m) || w.0 in spared) ==> w.1 == TrueReading(bus, m))
        && (AnswersAll(bus) && !BelowLastRegister(m) && w.0 !in spared ==> w.1 == Err(OutOfBounds))
  }

  ghost predicate RightWrites(bus: Bus, metrics: seq<MetricConfig>, spared: set<nat>, writes: seq<(nat, Outcome)>) {
    forall k :: 0 <= k < |writes| ==> RightWrite(bus, metrics, spared, writes[k])
  }

  lemma {:induction false} SinglesAt(bus: Bus, n: nat, items: seq<Item>, k: nat)
    requires k <= |items| && Addressed(items)
    ensures var r := SinglesTo(bus, n, items, k);
            && |r.log| == |r.writes| == k
            && forall j :: 0 <= j < k ==>
                 && r.writes[j] == (items[j].idx, SingleOutcome(bus, n + j, items[j].metric))
                 && r.log[j] == SingleRequest(items[j].metric)
  {
    if k > 0 {
      SinglesAt(bus, n, items, k - 1);
    }
  }

  lemma {:induction false} DecodedAt(regs: seq<word>, start: word, items: seq<Item>, k: nat)
    requires k <= |items|
    ensures var r := DecodedTo(regs, start, items, k);
            && r.log == [] && |r.writes| == k
            && forall j :: 0 <= j < k ==> r.writes[j] == (items[j].idx, DecodeMetric(items[j].metric, regs, start))
  {
    if k > 0 {
      DecodedAt(regs, start, items, k - 1);
    }
  }

  lemma {:induction false} SingleIsRight(bus: Bus, n: nat, x: Item, metrics: seq<MetricConfig>, c: Class, spared: set<nat>)
    requires IsItemOf(x, metrics, c) && c != Unaddressed
    requires AnswersAll(bus) && !BelowLastRegister(x.metric) ==> x.idx in spared
    ensures RightWrite(bus, metrics, spared, (x.idx, SingleOutcome(bus, n, x.metric)))
  {
    TrueReadingIsOk(bus, x.metric);
  }

  lemma {:induction false} SinglesAreRight(
    bus: Bus, n: nat, items: seq<Item>, metrics: seq<MetricConfig>, c: Class, spared: set<nat>)
    requires AreItemsOf(items, metrics, c) && c != Unaddressed
    requires forall k :: 0 <= k < |items| ==> (AnswersAll(bus) && !BelowLastRegister(items[k].metric) ==> items[k].idx in spared)
    ensures RightWrites(bus, metrics, spared, SinglesTo(bus, n, items, |items|).writes)
  {
    ItemsAreAddressed(items, metrics, c);
    SinglesAt(bus, n, items, |items|);
    var writes := SinglesTo(bus, n, items, |items|).writes;
    forall k | 0 <= k < |writes| ensures RightWrite(bus, metrics, spared, writes[k]) {
      assert IsItemOf(items[k], metrics, c);
      SingleIsRight(bus, n + k, items[k], metrics, c, spared);
    }
  }

  lemma {:induction false} DecodedIsRight(
    bus: Bus, kind: RegisterType, r: MergedRange, j: nat, metrics: seq<MetricConfig>, spared: set<nat>)
    requires IsRegister(kind) && r.Count() > 0 && j < |r.members|
    requires IsItemOf(r.members[j], metrics, ByRegister(kind)) && Contains(r, r.members[j]) && r.members[j].idx !in spared
    ensures RightWrite(bus, metrics, spared,
                       (r.members[j].idx, DecodeMetric(r.members[j].metric, Registers(bus, kind, r.start, r.Count()), r.start)))
  {
    var m := r.members[j].metric;
    DecodedIsTrue(bus, kind, r.start, r.Count(), m);
    TrueReadingIsOk(bus, m);
  }

  lemma {:induction false} DecodedAreRight(
    bus: Bus, kind: RegisterType, r: MergedRange, metrics: seq<MetricConfig>, spared: set<nat>)
    requires RangeOf(r, metrics, kind) && IsRegister(kind) && r.Count() > 0 && Settled(r, spared)
    ensures RightWrites(bus, metrics, spared, DecodedTo(Registers(bus, kind, r.start, r.Count()), r.start, r.members, |r.members|).writes)
  {
    var regs := Registers(bus, kind, r.start, r.Count());
    DecodedAt(regs, r.start, r.members, |r.members|);
    var writes := DecodedTo(regs, r.start, r.members, |r.members|).writes;
    forall k | 0 <= k < |writes| ensures RightWrite(bus, metrics, spared, writes[k]) {
      assert IsItemOf(r.members[k], metrics, ByRegister(kind)) && Contains(r, r.members[k]);
      DecodedIsRight(bus, kind, r, k, metrics, spared);
    }
  }

  /** A device that answers everything refuses only empty ranges. */
  lemma {:induction false} OnlyEmptyRefused(bus: Bus, n: nat, kind: RegisterType, r: MergedRange)
    requires AnswersAll(bus) && SoundRange(r) && IsRegister(kind) && r.Count() > 0
    ensures Accepts(bus, n, RangeRequest(kind, r))
  {
  }

  lemma {:induction false} RangeIsRight(
    bus: Bus, n: nat, kind: RegisterType, r: MergedRange, metrics: seq<MetricConfig>, spared: set<nat>)
    requires RangeOf(r, metrics, kind) && IsRegister(kind) && SoundRange(r) && Settled(r, spared)
    ensures RightWrites(bus, metrics, spared, RangeRun(bus, n, kind, r).writes)
  {
    if Accepts(bus, n, RangeRequest(kind, r)) {
      DecodedAreRight(bus, kind, r, metrics, spared);
    } else {
      if AnswersAll(bus) && r.Count() > 0 {
        OnlyEmptyRefused(bus, n, kind, r);
      }
      SinglesAreRight(bus, n + 1, r.members, metrics, ByRegister(kind), spared);
    }
  }

  lemma {:induction false} ChainIsRight(bus: Bus, runs: seq<Run>, k: nat, metrics: seq<MetricConfig>, spared: set<nat>)
    requires k <= |runs| && forall j :: 0 <= j < k ==> RightWrites(bus, metrics, spared, runs[j].writes)
    ensures RightWrites(bus, metrics, spared, Chain(runs, k).writes)
  {
    if k > 0 {
      ChainIsRight(bus, runs, k - 1, metrics, spared);
      RightConcat(bus, metrics, spared, Chain(runs, k - 1).writes, runs[k - 1].writes);
    }
  }

  lemma {:induction false} RangesAreRight(
    bus: Bus, n: nat, kind: RegisterType, ranges: seq<MergedRange>, metrics: seq<MetricConfig>, spared: set<nat>)
    requires RangesOf(ranges, metrics, kind) && IsRegister(kind) && AllSound(ranges) && AllSettled(ranges, spared)
    ensures RightWrites(bus, metrics, spared, RangesTo(bus, n, kind, ranges, |ranges|).writes)
  {
    var runs := RangeRuns(bus, n, kind, ranges, |ranges|);
    forall j | 0 <= j < |ranges| ensures RightWrites(bus, metrics, spared, runs[j].writes) {
      assert RangeOf(ranges[j], metrics, kind) && SoundRange(ranges[j]) && Settled(ranges[j], spared);
      RunAt(bus, n, kind, ranges, j, |ranges|);
      RangeIsRight(bus, CallOf(bus, n, kind, ranges, j), kind, ranges[j], metrics, spared);
    }
    ChainIsRight(bus, runs, |ranges|, metrics, spared);
  }

  lemma {:induction false} UnaddressedAreRight(bus: Bus, metrics: seq<MetricConfig>, n: nat, spared: set<nat>)
    requires n <= |metrics|
    ensures RightWrites(bus, metrics, spared, UnaddressedTo(metrics, n).writes)
  {
    if n > 0 {
      UnaddressedAreRight(bus, metrics, n - 1, spared);
    }
  }

  lemma {:induction false} ClassIsRight(bus: Bus, n: nat, metrics: seq<MetricConfig>, c: Class, spared: set<nat>)
    requires (c.ByRegister? ==> IsRegister(c.kind)) && spared == Spared(metrics)
    ensures RightWrites(bus, metrics, spared, ClassRun(bus, n, metrics, c).writes)
  {
    match c
    case Unaddressed =>
      UnaddressedAreRight(bus, metrics, |metrics|, spared);
    case ByRegister(kind) =>
      RangesForAreRanges(metrics, kind);
      RangesAreSettled(metrics, kind);
      RangesAreRight(bus, n, kind, RangesFor(metrics, kind), metrics, spared);
    case ByBit =>
      PickIsOf(metrics, |metrics|, ByBit);
      var items := Pick(metrics, |metrics|, ByBit);
      forall k | 0 <= k < |items| ensures BelowLastRegister(items[k].metric) {
        assert IsItemOf(items[k], metrics, ByBit);
      }
      SinglesAreRight(bus, n, items, metrics, ByBit, spared);
  }

  lemma {:induction false} RightConcat(
    bus: Bus, metrics: seq<MetricConfig>, spared: set<nat>, a: seq<(nat, Outcome)>, b: seq<(nat, Outcome)>)
    requires RightWrites(bus, metrics, spared, a) && RightWrites(bus, metrics, spared, b)
    ensures RightWrites(bus, metrics, spared, a + b)
  {
    forall k | 0 <= k < |a + b| ensures RightWrite(bus, metrics, spared, (a + b)[k]) {
      if k < |a| {
        assert RightWrite(bus, metrics, spared, a[k]);
      } else {
        assert RightWrite(bus, metrics, spared, b[k - |a|]);
      }
    }
  }

  lemma {:induction false} BatchIsRight(bus: Bus, n: nat, metrics: seq<MetricConfig>, spared: set<nat>)
    requires spared == Spared(metrics)
    ensures RightWrites(bus, metrics, spared, BatchRun(bus, n, metrics).writes)
  {
    var runs := ClassRuns(bus, n, metrics, CLASSES);
    forall j | 0 <= j < CLASSES ensures RightWrites(bus, metrics, spared, runs[j].writes) {
      StageAt(bus, n, metrics, j, CLASSES);
      ClassIsRight(bus, StageOf(bus, n, metrics, j), metrics, Serve(j), spared);
    }
    ChainIsRight(bus, runs, CLASSES, metrics, spared);
  }

  lemma {:induction false} ResultIsRight(bus: Bus, n: nat, metrics: seq<MetricConfig>, i: nat)
    requires i < |metrics|
    ensures RightWrite(bus, metrics, Spared(metrics), (i, Results(bus, n, metrics)[i]))
  {
    var k := ResultIsWritten(bus, n, metrics, i);
    BatchIsRight(bus, n, metrics, Spared(metrics));
    assert RightWrite(bus, metrics, Spared(metrics), BatchRun(bus, n, metrics).writes[k]);
  }

  lemma {:induction false} RightInFull(bus: Bus, metrics: seq<MetricConfig>, spared: set<nat>, i: nat, r: Outcome)
    requires RightWrite(bus, metrics, spared, (i, r)) && i < |metrics|
    ensures r != Err(NotProcessed)
    ensures metrics[i].address.None? ==> r == Err(NoAddress)
    ensures metrics[i].address.Some? && r.Ok? ==> r == TrueReading(bus, metrics[i])
    ensures AlwaysReadable(bus, metrics[i]) && (BelowLastRegister(metrics[i]) || i in spared) ==> r == TrueReading(bus, metrics[i])
    ensures AnswersAll(bus) && !BelowLastRegister(metrics[i]) && i !in spared ==> r == Err(OutOfBounds)
  {
    assert Unfold(true);
  }

  /** Refinement: whatever the device answers and whichever ranges fail, a value
      the batch reports for a metric is the value reading that metric alone
      gives; a metric without address reports just that. */
  lemma {:induction false} BatchRefinesSingleReads(bus: Bus, n: nat, metrics: seq<MetricConfig>, i: nat)
    requires i < |metrics|
    ensures var r := Results(bus, n, metrics)[i];
            && (metrics[i].address.None? ==> r == Err(NoAddress))
            && (metrics[i].address.Some? && r.Ok? ==> r == TrueReading(bus, metrics[i]))
            && r != Err(NotProcessed)
  {
    ResultIsRight(bus, n, metrics, i);
    RightInFull(bus, metrics, Spared(metrics), i, Results(bus, n, metrics)[i]);
  }

  /** No metric pays for another: one that can be read alone at any time and is safe
      gets its value, whatever the other metrics are, whichever of them cannot be
      read and whichever ranges fail with them. */
  lemma {:induction false} SafeMetricIsDelivered(bus: Bus, n: nat, metrics: seq<MetricConfig>, i: nat)
    requires i < |metrics| && AlwaysReadable(bus, metrics[i]) && Safe(metrics, i)
    ensures Results(bus, n, metrics)[i] == TrueReading(bus, metrics[i]) && Results(bus, n, metrics)[i].Ok?
  {
    ResultIsRight(bus, n, metrics, i);
    RightInFull(bus, metrics, Spared(metrics), i, Results(bus, n, metrics)[i]);
    TrueReadingIsOk(bus, metrics[i]);
  }

  /** A metric that is not safe is lost by every device that answers everything. */
  lemma {:induction false} UnsafeMetricIsLost(bus: Bus, n: nat, metrics: seq<MetricConfig>, i: nat)
    requires i < |metrics| && AnswersAll(bus) && !Safe(metrics, i)
    ensures Results(bus, n, metrics)[i] == Err(OutOfBounds)
  {
    ResultIsRight(bus, n, metrics, i);
    RightInFull(bus, metrics, Spared(metrics), i, Results(bus, n, metrics)[i]);
  }

  /** A metric the configuration accepts. */
  predicate Configurable(m: MetricConfig) {
    m.address.Some? && m.address.value + SingleRequest(m).count <= 0x1_0000
  }

  /** The exact condition, free of any device: the batch delivers the value of a
      metric from every device that can always read it alone if and only if the
      metric is safe. */
  lemma {:induction false} DeliveredIffSafe(n: nat, metrics: seq<MetricConfig>, i: nat)
    requires i < |metrics| && Configurable(metrics[i])
    ensures (forall bus :: AlwaysReadable(bus, metrics[i]) ==> Results(bus, n, metrics)[i] == TrueReading(bus, metrics[i]))
       <==> Safe(metrics, i)
  {
    if Safe(metrics, i) {
      forall bus | AlwaysReadable(bus, metrics[i]) ensures Results(bus, n, metrics)[i] == TrueReading(bus, metrics[i]) {
        SafeMetricIsDelivered(bus, n, metrics, i);
      }
    } else {
      var bus := Willing;
      UnsafeMetricIsLost(bus, n, metrics, i);
      TrueReadingIsOk(bus, metrics[i]);
      assert AlwaysReadable(bus, metrics[i]);
    }
  }

  // ----- completeness -----

  /** No member runs past the end of its range. */
  predicate Fits(r: MergedRange) {
    forall k :: 0 <= k < |r.members| ==> r.members[k].End() <= r.end
  }

  /** A member is cut off only by the saturation at register 65535. */
  lemma {:induction false} FitsUnlessLastRegister(r: MergedRange)
    requires forall k :: 0 <= k < |r.members| ==> Contains(r, r.members[k])
    ensures Fits(r) <==> forall k :: 0 <= k < |r.members| ==> r.members[k].End() <= 0xFFFF
  {
    forall k | 0 <= k < |r.members| ensures r.members[k].End() <= r.end <==> r.members[k].End() <= 0xFFFF {
      assert Contains(r, r.members[k]);
    }
  }

  predicate AllOk(writes: seq<(nat, Outcome)>) {
    forall k :: 0 <= k < |writes| ==> writes[k].1.Ok?
  }

  /** Are all these individual reads, the first being the n-th call, answered? */
  predicate SinglesAccepted(bus: Bus, n: nat, items: seq<Item>) {
    forall j :: 0 <= j < |items| ==> items[j].metric.address.Some? && Accepts(bus, n + j, SingleRequest(items[j].metric))
  }

  lemma {:induction false} SinglesSucceed(bus: Bus, n: nat, items: seq<Item>)
    requires Addressed(items)
    ensures AllOk(SinglesTo(bus, n, items, |items|).writes) <==> SinglesAccepted(bus, n, items)
  {
    SinglesAt(bus, n, items, |items|);
    forall k | 0 <= k < |items|
      ensures SingleOutcome(bus, n + k, items[k].metric).Ok? <==> Accepts(bus, n + k, SingleRequest(items[k].metric))
    {
      TrueReadingIsOk(bus, items[k].metric);
    }
  }

  lemma {:induction false} DecodedSucceed(bus: Bus, kind: RegisterType, r: MergedRange, metrics: seq<MetricConfig>)
    requires RangeOf(r, metrics, kind) && IsRegister(kind)
    ensures AllOk(DecodedTo(Registers(bus, kind, r.start, r.Count()), r.start, r.members, |r.members|).writes) <==> Fits(r)
  {
    var regs := Registers(bus, kind, r.start, r.Count());
    DecodedAt(regs, r.start, r.members, |r.members|);
    forall k | 0 <= k < |r.members|
      ensures DecodeMetric(r.members[k].metric, regs, r.start).Ok? <==> r.members[k].End() <= r.end
    {
      assert IsItemOf(r.members[k], metrics, ByRegister(kind)) && Contains(r, r.members[k]);
      DecodedIsTrue(bus, kind, r.start, r.Count(), r.members[k].metric);
      TrueReadingIsOk(bus, r.members[k].metric);
    }
  }

  /** Does this range, first read in the n-th call, deliver everything? An answered one
      has to hold its members, after a failed one each member has to be answered. */
  predicate RangeDelivers(bus: Bus, n: nat, kind: RegisterType, r: MergedRange) {
    if Accepts(bus, n, RangeRequest(kind, r)) then Fits(r) else SinglesAccepted(bus, n + 1, r.members)
  }

  lemma {:induction false} RangeSucceeds(bus: Bus, n: nat, kind: RegisterType, r: MergedRange, metrics: seq<MetricConfig>)
    requires RangeOf(r, metrics, kind) && IsRegister(kind)
    ensures AllOk(RangeRun(bus, n, kind, r).writes) <==> RangeDelivers(bus, n, kind, r)
  {
    if Accepts(bus, n, RangeRequest(kind, r)) {
      DecodedSucceed(bus, kind, r, metrics);
      AllOkConcat([], DecodedTo(Registers(bus, kind, r.start, r.Count()), r.start, r.members, |r.members|).writes);
    } else {
      ItemsAreAddressed(r.members, metrics, ByRegister(kind));
      SinglesSucceed(bus, n + 1, r.members);
      AllOkConcat([], SinglesTo(bus, n + 1, r.members, |r.members|).writes);
    }
  }

  /** Do all these ranges deliver everything, each from the call that reads it? */
  predicate RangesDeliver(bus: Bus, n: nat, kind: RegisterType, ranges: seq<MergedRange>) {
    forall k :: 0 <= k < |ranges| ==> RangeDelivers(bus, CallOf(bus, n, kind, ranges, k), kind, ranges[k])
  }

  lemma {:induction false} AllOkConcat(a: seq<(nat, Outcome)>, b: seq<(nat, Outcome)>)
    ensures AllOk(a + b) <==> AllOk(a) && AllOk(b)
  {
    if AllOk(a + b) {
      forall k | 0 <= k < |a| ensures a[k].1.Ok? { assert (a + b)[k] == a[k]; }
      forall k | 0 <= k < |b| ensures b[k].1.Ok? { assert (a + b)[|a| + k] == b[k]; }
    }
  }

  lemma {:induction false} ChainSucceeds(runs: seq<Run>, k: nat)
    requires k <= |runs|
    ensures AllOk(Chain(runs, k).writes) <==> forall j :: 0 <= j < k ==> AllOk(runs[j].writes)
  {
    if k > 0 {
      ChainSucceeds(runs, k - 1);
      AllOkConcat(Chain(runs, k - 1).writes, runs[k - 1].writes);
    }
  }

  lemma {:induction false} RangesSucceed(
    bus: Bus, n: nat, kind: RegisterType, ranges: seq<MergedRange>, metrics: seq<MetricConfig>)
    requires RangesOf(ranges, metrics, kind) && IsRegister(kind)
    ensures AllOk(RangesTo(bus, n, kind, ranges, |ranges|).writes) <==> RangesDeliver(bus, n, kind, ranges)
  {
    var runs := RangeRuns(bus, n, kind, ranges, |ranges|);
    forall j | 0 <= j < |ranges|
      ensures AllOk(runs[j].writes) <==> RangeDelivers(bus, CallOf(bus, n, kind, ranges, j), kind, ranges[j])
    {
      assert RangeOf(ranges[j], metrics, kind);
      RunAt(bus, n, kind, ranges, j, |ranges|);
      RangeSucceeds(bus, CallOf(bus, n, kind, ranges, j), kind, ranges[j], metrics);
    }
    ChainSucceeds(runs, |ranges|);
  }

  /** Does everything done for the class, from the n-th call on, deliver? */
  predicate ClassDelivers(bus: Bus, n: nat, metrics: seq<MetricConfig>, c: Class) {
    match c
    case Unaddressed => true
    case ByRegister(kind) => RangesDeliver(bus, n, kind, RangesFor(metrics, kind))
    case ByBit => SinglesAccepted(bus, n, Pick(metrics, |metrics|, ByBit))
  }

  /** Does the device, answering as it does, let a whole batch through? */
  predicate BatchDelivers(bus: Bus, n: nat, metrics: seq<MetricConfig>) {
    forall k :: 0 <= k < CLASSES ==> ClassDelivers(bus, StageOf(bus, n, metrics, k), metrics, Serve(k))
  }

  /** Every write for an addressed metric carries a value. */
  predicate AddressedOk(metrics: seq<MetricConfig>, writes: seq<(nat, Outcome)>) {
    forall k :: 0 <= k < |writes| && writes[k].0 < |metrics| && metrics[writes[k].0].address.Some? ==> writes[k].1.Ok?
  }

  lemma {:induction false} AllOkAreAddressedOk(metrics: seq<MetricConfig>, c: Class, writes: seq<(nat, Outcome)>)
    requires c != Unaddressed
    requires forall i: nat :: Times(writes, i) == if i < |metrics| && ClassOf(metrics[i]) == c then 1 else 0
    ensures AddressedOk(metrics, writes) <==> AllOk(writes)
  {
    forall k | 0 <= k < |writes|
      ensures writes[k].0 < |metrics| && metrics[writes[k].0].address.Some?
    {
      WriteIsCounted(writes, k);
    }
  }

  lemma {:induction false} WriteIsCounted(writes: seq<(nat, Outcome)>, k: nat)
    requires k < |writes|
    ensures Times(writes, writes[k].0) > 0
  {
    if k < |writes| - 1 {
      WriteIsCounted(writes[..|writes| - 1], k);
    }
  }

  lemma {:induction false} HeldByItem(items: seq<Item>, i: nat) returns (j: nat)
    requires Holds(items, i) > 0
    ensures j < |items| && items[j].idx == i
  {
    var last := |items| - 1;
    if items[last].idx == i {
      j := last;
    } else {
      j := HeldByItem(items[..last], i);
    }
  }

  lemma {:induction false} AddressedOkConcat(metrics: seq<MetricConfig>, a: seq<(nat, Outcome)>, b: seq<(nat, Outcome)>)
    ensures AddressedOk(metrics, a + b) <==> AddressedOk(metrics, a) && AddressedOk(metrics, b)
  {
    if AddressedOk(metrics, a + b) {
      forall k | 0 <= k < |a| && a[k].0 < |metrics| && metrics[a[k].0].address.Some? ensures a[k].1.Ok? {
        assert (a + b)[k] == a[k];
      }
      forall k | 0 <= k < |b| && b[k].0 < |metrics| && metrics[b[k].0].address.Some? ensures b[k].1.Ok? {
        assert (a + b)[|a| + k] == b[k];
      }
    }
  }

  lemma {:induction false} UnaddressedAreFine(metrics: seq<MetricConfig>, n: nat)
    requires n <= |metrics|
    ensures AddressedOk(metrics, UnaddressedTo(metrics, n).writes)
  {
    if n > 0 {
      UnaddressedAreFine(metrics, n - 1);
    }
  }

  lemma {:induction false} ClassIsFine(bus: Bus, n: nat, metrics: seq<MetricConfig>, c: Class)
    requires c.ByRegister? ==> IsRegister(c.kind)
    ensures AddressedOk(metrics, ClassRun(bus, n, metrics, c).writes) <==> ClassDelivers(bus, n, metrics, c)
  {
    match c
    case Unaddressed =>
      UnaddressedAreFine(metrics, |metrics|);
    case ByRegister(kind) =>
      ClassSucceeds(bus, n, metrics, c);
      RangesForAreRanges(metrics, kind);
      RangesSucceed(bus, n, kind, RangesFor(metrics, kind), metrics);
    case ByBit =>
      ClassSucceeds(bus, n, metrics, c);
      var picked := Pick(metrics, |metrics|, ByBit);
      BitItemsFit(metrics, picked);
      SinglesSucceed(bus, n, picked);
  }

  /** Other classes have metrics with an address only. */
  lemma {:induction false} ClassSucceeds(bus: Bus, n: nat, metrics: seq<MetricConfig>, c: Class)
    requires c != Unaddressed
    ensures AddressedOk(metrics, ClassRun(bus, n, metrics, c).writes) <==> AllOk(ClassRun(bus, n, metrics, c).writes)
  {
    var writes := ClassRun(bus, n, metrics, c).writes;
    forall i: nat ensures Times(writes, i) == if i < |metrics| && ClassOf(metrics[i]) == c then 1 else 0 {
      ClassTouches(bus, n, metrics, c, i);
    }
    AllOkAreAddressedOk(metrics, c, writes);
  }

  lemma {:induction false} ChainIsFine(metrics: seq<MetricConfig>, runs: seq<Run>, k: nat)
    requires k <= |runs|
    ensures AddressedOk(metrics, Chain(runs, k).writes) <==> forall j :: 0 <= j < k ==> AddressedOk(metrics, runs[j].writes)
  {
    if k > 0 {
      ChainIsFine(metrics, runs, k - 1);
      AddressedOkConcat(metrics, Chain(runs, k - 1).writes, runs[k - 1].writes);
    }
  }

  lemma {:induction false} WritesComplete(bus: Bus, n: nat, metrics: seq<MetricConfig>)
    ensures AddressedOk(metrics, BatchRun(bus, n, metrics).writes) <==> BatchDelivers(bus, n, metrics)
  {
    var runs := ClassRuns(bus, n, metrics, CLASSES);
    forall j | 0 <= j < CLASSES
      ensures AddressedOk(metrics, runs[j].writes) <==> ClassDelivers(bus, StageOf(bus, n, metrics, j), metrics, Serve(j))
    {
      StageAt(bus, n, metrics, j, CLASSES);
      ClassIsFine(bus, StageOf(bus, n, metrics, j), metrics, Serve(j));
    }
    ChainIsFine(metrics, runs, CLASSES);
  }

  lemma {:induction false} TwoWritesCountTwice(writes: seq<(nat, Outcome)>, a: nat, b: nat)
    requires a < b < |writes| && writes[a].0 == writes[b].0
    ensures Times(writes, writes[a].0) >= 2
  {
    var front := writes[..|writes| - 1];
    if b < |writes| - 1 {
      TwoWritesCountTwice(front, a, b);
    } else {
      WriteIsCounted(front, a);
    }
  }

  /** Every write is the result of its slot. */
  lemma {:induction false} WriteIsResult(bus: Bus, n: nat, metrics: seq<MetricConfig>, k: nat)
    requires k < |BatchRun(bus, n, metrics).writes|
    ensures var w := BatchRun(bus, n, metrics).writes[k];
            w.0 < |metrics| && Results(bus, n, metrics)[w.0] == w.1
  {
    var writes := BatchRun(bus, n, metrics).writes;
    var i := writes[k].0;
    WriteIsCounted(writes, k);
    EachSlotWrittenOnce(bus, n, metrics, i);
    var j := ResultIsWritten(bus, n, metrics, i);
    if j < k {
      TwoWritesCountTwice(writes, j, k);
    } else if k < j {
      TwoWritesCountTwice(writes, k, j);
    }
  }

  ghost predicate Complete(bus: Bus, n: nat, metrics: seq<MetricConfig>) {
    forall i :: 0 <= i < |metrics| && metrics[i].address.Some? ==> Results(bus, n, metrics)[i].Ok?
  }

  /** Completeness, answer by answer: every addressed metric is reported with a value
      exactly when every answered range holds its members, every member of a
      failed range is answered alone, and every bit read is answered. */
  lemma {:induction false} BatchIsComplete(bus: Bus, n: nat, metrics: seq<MetricConfig>)
    ensures Complete(bus, n, metrics) <==> BatchDelivers(bus, n, metrics)
  {
    WritesComplete(bus, n, metrics);
    var writes, results := BatchRun(bus, n, metrics).writes, Results(bus, n, metrics);
    if AddressedOk(metrics, writes) {
      forall i | 0 <= i < |metrics| && metrics[i].address.Some? ensures results[i].Ok? {
        var k := ResultIsWritten(bus, n, metrics, i);
      }
    } else {
      var k :| 0 <= k < |writes| && writes[k].0 < |metrics| && metrics[writes[k].0].address.Some? && writes[k].1.Err?;
      WriteIsResult(bus, n, metrics, k);
    }
  }

  // ----- completeness without knowing the device -----

  /** A range that cannot cost a value: it is empty, so that its members are read
      alone, or it holds its members. */
  predicate Harmless(r: MergedRange) {
    r.Count() == 0 || Fits(r)
  }

  predicate AllHarmless(metrics: seq<MetricConfig>) {
    forall k, kind :: IsRegister(kind) && 0 <= k < |RangesFor(metrics, kind)| ==> Harmless(RangesFor(metrics, kind)[k])
  }

  predicate AllSafe(metrics: seq<MetricConfig>) {
    forall i :: 0 <= i < |metrics| && metrics[i].address.Some? ==> Safe(metrics, i)
  }

  lemma {:induction false} MembersAreSafe(metrics: seq<MetricConfig>, kind: RegisterType, k: nat)
    requires IsRegister(kind) && k < |RangesFor(metrics, kind)|
    ensures RangeOf(RangesFor(metrics, kind)[k], metrics, kind)
    ensures Harmless(RangesFor(metrics, kind)[k])
       <==> forall j :: 0 <= j < |RangesFor(metrics, kind)[k].members| ==> Safe(metrics, RangesFor(metrics, kind)[k].members[j].idx)
  {
    var r := RangesFor(metrics, kind)[k];
    RangesForAreRanges(metrics, kind);
    RangeIsSettled(metrics, kind, k);
    assert RangeOf(r, metrics, kind);
    FitsUnlessLastRegister(r);
    forall j | 0 <= j < |r.members|
      ensures Safe(metrics, r.members[j].idx) <==> r.members[j].End() <= 0xFFFF || r.Count() == 0
    {
      assert IsItemOf(r.members[j], metrics, ByRegister(kind));
    }
  }

  lemma {:induction false} FindRange(ranges: seq<MergedRange>, n: nat, i: nat) returns (k: nat, j: nat)
    requires n <= |ranges| && Holds(Flatten(ranges[..n]), i) > 0
    ensures k < n && j < |ranges[k].members| && ranges[k].members[j].idx == i
  {
    if n == 0 {
      NothingHeld(ranges, n, i);
    } else {
      NextRangeHolds(ranges, n - 1, i);
      if Holds(ranges[n - 1].members, i) > 0 {
        k := n - 1;
        j := HeldByItem(ranges[k].members, i);
      } else {
        k, j := FindRange(ranges, n - 1, i);
      }
    }
  }

  lemma {:induction false} NothingHeld(ranges: seq<MergedRange>, n: nat, i: nat)
    requires n == 0
    ensures Holds(Flatten(ranges[..n]), i) == 0
  {
  }

  lemma {:induction false} RangeOfMetric(metrics: seq<MetricConfig>, i: nat) returns (k: nat, j: nat)
    requires i < |metrics| && metrics[i].address.Some? && IsRegister(KindOf(metrics[i]))
    ensures var ranges := RangesFor(metrics, KindOf(metrics[i]));
            k < |ranges| && j < |ranges[k].members| && ranges[k].members[j].idx == i
  {
    var kind := KindOf(metrics[i]);
    var ranges := RangesFor(metrics, kind);
    RangesHold(metrics, kind, i);
    PickHolds(metrics, |metrics|, ByRegister(kind), i);
    assert ranges[..|ranges|] == ranges;
    k, j := FindRange(ranges, |ranges|, i);
  }

  /** Harmless ranges are ranges of safe metrics. */
  lemma {:induction false} HarmlessIffSafe(metrics: seq<MetricConfig>)
    ensures AllHarmless(metrics) <==> AllSafe(metrics)
  {
    if AllHarmless(metrics) {
      forall i | 0 <= i < |metrics| && metrics[i].address.Some? ensures Safe(metrics, i) {
        if IsRegister(KindOf(metrics[i])) {
          var k, j := RangeOfMetric(metrics, i);
          MembersAreSafe(metrics, KindOf(metrics[i]), k);
        }
      }
    }
    if AllSafe(metrics) {
      forall k, kind | IsRegister(kind) && 0 <= k < |RangesFor(metrics, kind)| ensures Harmless(RangesFor(metrics, kind)[k]) {
        MembersAreSafe(metrics, kind, k);
        var r := RangesFor(metrics, kind)[k];
        forall j | 0 <= j < |r.members| ensures Safe(metrics, r.members[j].idx) {
          assert IsItemOf(r.members[j], metrics, ByRegister(kind));
        }
      }
    }
  }

  /** The device can always read every addressed metric alone. */
  ghost predicate SinglesAnswered(bus: Bus, metrics: seq<MetricConfig>) {
    forall i :: 0 <= i < |metrics| && metrics[i].address.Some? ==> AlwaysReadable(bus, metrics[i])
  }

  lemma {:induction false} HarmlessIsSufficient(bus: Bus, n: nat, metrics: seq<MetricConfig>)
    requires SinglesAnswered(bus, metrics) && AllHarmless(metrics)
    ensures Complete(bus, n, metrics)
  {
    HarmlessIffSafe(metrics);
    forall i | 0 <= i < |metrics| && metrics[i].address.Some? ensures Results(bus, n, metrics)[i].Ok? {
      SafeMetricIsDelivered(bus, n, metrics, i);
    }
  }

  lemma {:induction false} HarmlessIsNecessary(bus: Bus, n: nat, metrics: seq<MetricConfig>)
    requires AnswersAll(bus) && !AllHarmless(metrics)
    ensures !Complete(bus, n, metrics)
  {
    HarmlessIffSafe(metrics);
    var i :| 0 <= i < |metrics| && metrics[i].address.Some? && !Safe(metrics, i);
    UnsafeMetricIsLost(bus, n, metrics, i);
  }

  /** Completeness before the call: a batch is complete on every device that can
      always read each metric alone if and only if all its ranges are harmless. */
  lemma {:induction false} CompleteIffHarmless(n: nat, metrics: seq<MetricConfig>)
    requires forall i :: 0 <= i < |metrics| && metrics[i].address.Some? ==> Configurable(metrics[i])
    ensures (forall bus :: SinglesAnswered(bus, metrics) ==> Complete(bus, n, metrics)) <==> AllHarmless(metrics)
  {
    if AllHarmless(metrics) {
      forall bus | SinglesAnswered(bus, metrics) ensures Complete(bus, n, metrics) {
        HarmlessIsSufficient(bus, n, metrics);
      }
    } else {
      HarmlessIsNecessary(Willing, n, metrics);
      assert SinglesAnswered(Willing, metrics);
    }
  }
}
