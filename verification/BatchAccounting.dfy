/** How many calls a batch makes and that each is a request the protocol allows
    (src/reader/modbus/batch.rs:208-270, src/reader/modbus/mod.rs:13-35); what
    happens at register 65535. */
module BatchAccounting {
  import opened Wrappers
  import opened MetricTypes
  import opened Decoder
  import opened Bus
  import opened Coalesce
  import opened BatchRead
  import opened BatchTheorems

  // ----- counting calls -----

  /** The members of the k-th range, if its read failed. */
  function FailedAt(bus: Bus, n: nat, kind: RegisterType, ranges: seq<MergedRange>, k: nat): nat
    requires k < |ranges|
  {
    if Accepts(bus, CallOf(bus, n, kind, ranges, k), RangeRequest(kind, ranges[k])) then 0 else |ranges[k].members|
  }

  /** Members of those among the first k ranges whose range read failed. */
  function FailedMembers(bus: Bus, n: nat, kind: RegisterType, ranges: seq<MergedRange>, k: nat): nat
    requires k <= |ranges|
  {
    if k == 0 then 0 else FailedMembers(bus, n, kind, ranges, k - 1) + FailedAt(bus, n, kind, ranges, k - 1)
  }

  lemma {:induction false} RangeCalls(bus: Bus, n: nat, kind: RegisterType, r: MergedRange)
    requires Addressed(r.members)
    ensures |RangeRun(bus, n, kind, r).log| == 1 + if Accepts(bus, n, RangeRequest(kind, r)) then 0 else |r.members|
  {
    DecodedIsFree(Registers(bus, kind, r.start, if r.Count() < 0 then 0 else r.Count()), r.start, r.members, |r.members|);
    SinglesAt(bus, n + 1, r.members, |r.members|);
  }

  lemma {:induction false} MembersAddressed(ranges: seq<MergedRange>, k: nat, kind: RegisterType, metrics: seq<MetricConfig>)
    requires RangesOf(ranges, metrics, kind) && k < |ranges|
    ensures Addressed(ranges[k].members) && ranges[k].members != []
  {
    assert RangeOf(ranges[k], metrics, kind);
    ItemsAreAddressed(ranges[k].members, metrics, ByRegister(kind));
  }

  lemma {:induction false} RangesCalls(
    bus: Bus, n: nat, kind: RegisterType, ranges: seq<MergedRange>, k: nat, metrics: seq<MetricConfig>)
    requires RangesOf(ranges, metrics, kind) && k <= |ranges|
    ensures |RangesTo(bus, n, kind, ranges, k).log| == k + FailedMembers(bus, n, kind, ranges, k)
  {
    if k > 0 {
      RangesCalls(bus, n, kind, ranges, k - 1, metrics);
      MembersAddressed(ranges, k - 1, kind, metrics);
      RangeCalls(bus, CallOf(bus, n, kind, ranges, k - 1), kind, ranges[k - 1]);
      RangesNext(bus, n, kind, ranges, k - 1, k);
    }
  }

  lemma {:induction false} FlattenedLength(ranges: seq<MergedRange>, k: nat, m: nat)
    requires m == k + 1 <= |ranges|
    ensures |Flatten(ranges[..m])| == |Flatten(ranges[..k])| + |ranges[k].members|
  {
    var part := ranges[..m];
    assert part[..k] == ranges[..k];
  }

  /** The first k ranges have at least k members, and at least those whose range read
      failed; folded like `Flattens`. */
  ghost predicate FewFailed(bus: Bus, n: nat, kind: RegisterType, ranges: seq<MergedRange>, k: nat) {
    forall b {:trigger Unfold(b)} :: Unfold(b) ==>
      k <= |ranges| && FailedMembers(bus, n, kind, ranges, k) <= |Flatten(ranges[..k])| && k <= |Flatten(ranges[..k])|
  }

  lemma {:induction false} NoneFailedYet(bus: Bus, n: nat, kind: RegisterType, ranges: seq<MergedRange>, k: nat)
    requires k == 0
    ensures FewFailed(bus, n, kind, ranges, k)
  {
  }

  predicate Populated(ranges: seq<MergedRange>) {
    forall k :: 0 <= k < |ranges| ==> ranges[k].members != []
  }

  lemma {:induction false} RangesArePopulated(ranges: seq<MergedRange>, metrics: seq<MetricConfig>, kind: RegisterType)
    requires RangesOf(ranges, metrics, kind)
    ensures Populated(ranges)
  {
    forall k | 0 <= k < |ranges| ensures ranges[k].members != [] {
      MembersAddressed(ranges, k, kind, metrics);
    }
  }

  lemma {:induction false} OneMoreFailed(bus: Bus, n: nat, kind: RegisterType, ranges: seq<MergedRange>, k: nat, m: nat)
    requires Populated(ranges) && m == k + 1 <= |ranges| && FewFailed(bus, n, kind, ranges, k)
    ensures FewFailed(bus, n, kind, ranges, m)
  {
    assert Unfold(true);
    FlattenedLength(ranges, k, m);
  }

  lemma {:induction false} FailedAtMostAll(bus: Bus, n: nat, kind: RegisterType, ranges: seq<MergedRange>, k: nat)
    requires Populated(ranges) && k <= |ranges|
    ensures FewFailed(bus, n, kind, ranges, k)
    decreases k
  {
    if k == 0 {
      NoneFailedYet(bus, n, kind, ranges, k);
    } else {
      FailedAtMostAll(bus, n, kind, ranges, k - 1);
      OneMoreFailed(bus, n, kind, ranges, k - 1, k);
    }
  }

  lemma {:induction false} SortLength(items: seq<Item>, n: nat)
    requires n <= |items|
    ensures |SortTo(items, n)| == n
  {
    if n > 0 {
      SortLength(items, n - 1);
    }
  }

  /** How many of the first n metrics are of the class. */
  function Members(metrics: seq<MetricConfig>, n: nat, c: Class): nat
    requires n <= |metrics|
  {
    if n == 0 then 0 else Members(metrics, n - 1, c) + if ClassOf(metrics[n - 1]) == c then 1 else 0
  }

  lemma {:induction false} PickLength(metrics: seq<MetricConfig>, n: nat, c: Class)
    requires n <= |metrics|
    ensures |Pick(metrics, n, c)| == Members(metrics, n, c)
  {
    if n > 0 {
      PickLength(metrics, n - 1, c);
    }
  }

  lemma {:induction false} ClassesCount(metrics: seq<MetricConfig>, n: nat)
    requires n <= |metrics|
    ensures Members(metrics, n, Unaddressed) + Members(metrics, n, ByRegister(Holding))
            + Members(metrics, n, ByRegister(Input)) + Members(metrics, n, ByBit) <= n
  {
    if n > 0 {
      ClassesCount(metrics, n - 1);
    }
  }

  /** The calls made for one class, the first being the n-th: one per merged range, one
      per member of a failed range, one per bit. */
  function ClassCalls(bus: Bus, n: nat, metrics: seq<MetricConfig>, c: Class): nat {
    match c
    case Unaddressed => 0
    case ByRegister(kind) =>
      var ranges := RangesFor(metrics, kind);
      |ranges| + FailedMembers(bus, n, kind, ranges, |ranges|)
    case ByBit => Members(metrics, |metrics|, ByBit)
  }

  /** Was no range read of the class refused? */
  predicate NoneFailed(bus: Bus, n: nat, metrics: seq<MetricConfig>, c: Class) {
    c.ByRegister? ==> FailedMembers(bus, n, c.kind, RangesFor(metrics, c.kind), |RangesFor(metrics, c.kind)|) == 0
  }

  lemma {:induction false} KindIsBounded(bus: Bus, n: nat, metrics: seq<MetricConfig>, kind: RegisterType)
    ensures var ranges, members := RangesFor(metrics, kind), Members(metrics, |metrics|, ByRegister(kind));
            && |RangesTo(bus, n, kind, ranges, |ranges|).log| == |ranges| + FailedMembers(bus, n, kind, ranges, |ranges|)
            && |ranges| <= members && FailedMembers(bus, n, kind, ranges, |ranges|) <= members
  {
    var ranges, picked := RangesFor(metrics, kind), Pick(metrics, |metrics|, ByRegister(kind));
    RangesForAreRanges(metrics, kind);
    SortLength(picked, |picked|);
    PickLength(metrics, |metrics|, ByRegister(kind));
    RangesCalls(bus, n, kind, ranges, |ranges|, metrics);
    RangesArePopulated(ranges, metrics, kind);
    FailedAtMostAll(bus, n, kind, ranges, |ranges|);
    assert Unfold(true);
    assert ranges[..|ranges|] == ranges;
  }

  lemma {:induction false} ClassIsCounted(bus: Bus, n: nat, metrics: seq<MetricConfig>, c: Class)
    ensures |ClassRun(bus, n, metrics, c).log| == ClassCalls(bus, n, metrics, c) <= 2 * Members(metrics, |metrics|, c)
    ensures NoneFailed(bus, n, metrics, c) ==> ClassCalls(bus, n, metrics, c) <= Members(metrics, |metrics|, c)
  {
    match c
    case Unaddressed =>
      UnaddressedIsFree(metrics, |metrics|);
    case ByRegister(kind) =>
      KindIsBounded(bus, n, metrics, kind);
    case ByBit =>
      var items := Pick(metrics, |metrics|, ByBit);
      BitItemsFit(metrics, items);
      SinglesAt(bus, n, items, |items|);
      PickLength(metrics, |metrics|, ByBit);
  }

  /** The calls made for each class in turn. */
  function CallList(bus: Bus, n: nat, metrics: seq<MetricConfig>): seq<nat> {
    seq(CLASSES, j requires 0 <= j < CLASSES => ClassCalls(bus, StageOf(bus, n, metrics, j), metrics, Serve(j)))
  }

  function MemberList(metrics: seq<MetricConfig>): seq<nat> {
    seq(CLASSES, j requires 0 <= j < CLASSES => Members(metrics, |metrics|, Serve(j)))
  }

  predicate NoRangeFailed(bus: Bus, n: nat, metrics: seq<MetricConfig>) {
    forall j :: 0 <= j < CLASSES ==> NoneFailed(bus, StageOf(bus, n, metrics, j), metrics, Serve(j))
  }

  lemma {:induction false} ChainLength(runs: seq<Run>, counts: seq<nat>, k: nat)
    requires k <= |runs| == |counts| && forall j :: 0 <= j < k ==> |runs[j].log| == counts[j]
    ensures |Chain(runs, k).log| == Total(counts, k)
  {
    if k > 0 {
      ChainLength(runs, counts, k - 1);
    }
  }

  lemma {:induction false} TotalBounded(counts: seq<nat>, bounds: seq<nat>, factor: nat, k: nat)
    requires k <= |counts| == |bounds| && forall j :: 0 <= j < k ==> counts[j] <= factor * bounds[j]
    ensures Total(counts, k) <= factor * Total(bounds, k)
  {
    if k > 0 {
      TotalBounded(counts, bounds, factor, k - 1);
      assert factor * Total(bounds, k) == factor * Total(bounds, k - 1) + factor * bounds[k - 1];
    }
  }

  lemma {:induction false} MembersInAll(metrics: seq<MetricConfig>, bounds: seq<nat>, k: nat)
    requires k == CLASSES && bounds == MemberList(metrics)
    ensures Total(bounds, k) <= |metrics|
  {
    ClassesCount(metrics, |metrics|);
    assert Total(bounds, k - 2) == Total(bounds, k - 3) + bounds[k - 3];
    assert Total(bounds, k - 3) == Total(bounds, k - 4) + bounds[k - 4];
  }

  lemma {:induction false} StagesAreCounted(bus: Bus, n: nat, metrics: seq<MetricConfig>, counts: seq<nat>)
    requires counts == CallList(bus, n, metrics)
    ensures |BatchRun(bus, n, metrics).log| == Total(counts, |counts|)
  {
    var runs := ClassRuns(bus, n, metrics, CLASSES);
    forall j | 0 <= j < CLASSES ensures |runs[j].log| == counts[j] {
      StageAt(bus, n, metrics, j, CLASSES);
      ClassIsCounted(bus, StageOf(bus, n, metrics, j), metrics, Serve(j));
    }
    ChainLength(runs, counts, CLASSES);
  }

  lemma {:induction false} StageIsBounded(bus: Bus, n: nat, metrics: seq<MetricConfig>, j: nat)
    requires j < CLASSES
    ensures CallList(bus, n, metrics)[j] <= 2 * MemberList(metrics)[j]
    ensures NoRangeFailed(bus, n, metrics) ==> CallList(bus, n, metrics)[j] <= MemberList(metrics)[j]
  {
    ClassIsCounted(bus, StageOf(bus, n, metrics, j), metrics, Serve(j));
  }

  lemma {:induction false} CallsAreBounded(counts: seq<nat>, bounds: seq<nat>, factor: nat, metrics: seq<MetricConfig>)
    requires |counts| == |bounds| == CLASSES && bounds == MemberList(metrics)
    requires forall j :: 0 <= j < |counts| ==> counts[j] <= factor * bounds[j]
    ensures Total(counts, |counts|) <= factor * |metrics|
  {
    TotalBounded(counts, bounds, factor, |counts|);
    MembersInAll(metrics, bounds, |counts|);
    Scale(factor, Total(bounds, |counts|), |metrics|);
  }

  lemma {:induction false} Scale(factor: nat, a: nat, b: nat)
    requires a <= b
    ensures factor * a <= factor * b
  {
  }

  lemma {:induction false} AllCallsBounded(bus: Bus, n: nat, metrics: seq<MetricConfig>, counts: seq<nat>)
    requires counts == CallList(bus, n, metrics)
    ensures Total(counts, |counts|) <= 2 * |metrics|
  {
    var bounds := MemberList(metrics);
    forall j | 0 <= j < |counts| ensures counts[j] <= 2 * bounds[j] {
      StageIsBounded(bus, n, metrics, j);
    }
    CallsAreBounded(counts, bounds, 2, metrics);
  }

  lemma {:induction false} UnfailedCallsBounded(bus: Bus, n: nat, metrics: seq<MetricConfig>, counts: seq<nat>)
    requires counts == CallList(bus, n, metrics) && NoRangeFailed(bus, n, metrics)
    ensures Total(counts, |counts|) <= |metrics|
  {
    var bounds := MemberList(metrics);
    forall j | 0 <= j < |counts| ensures counts[j] <= 1 * bounds[j] {
      StageIsBounded(bus, n, metrics, j);
    }
    CallsAreBounded(counts, bounds, 1, metrics);
  }

  /** Read accounting: a batch makes one call per merged range, one per member
      of a failed range and one per coil or discrete input; at most two per
      metric, and at most one when no range read fails. */
  lemma {:induction false} BatchCalls(bus: Bus, n: nat, metrics: seq<MetricConfig>)
    ensures |BatchRun(bus, n, metrics).log| == Total(CallList(bus, n, metrics), |CallList(bus, n, metrics)|) <= 2 * |metrics|
    ensures NoRangeFailed(bus, n, metrics) ==> |BatchRun(bus, n, metrics).log| <= |metrics|
  {
    var counts := CallList(bus, n, metrics);
    StagesAreCounted(bus, n, metrics, counts);
    AllCallsBounded(bus, n, metrics, counts);
    if NoRangeFailed(bus, n, metrics) {
      UnfailedCallsBounded(bus, n, metrics, counts);
    }
  }

  // ----- every request is one the protocol allows -----

  /** The limits of sections 6.1 to 6.4 of the MODBUS Application Protocol
      Specification. */
  predicate InLimits(req: Request) {
    match req.kind
    case Coil | Discrete => 1 <= req.count <= 2000
    case Holding | Input => 1 <= req.count <= 125
  }

  /** A request within these limits, or the empty read that saturation
      produces at the last register and the reader rejects. */
  predicate Allowed(req: Request) {
    InLimits(req) || (IsRegister(req.kind) && req.count == 0 && req.addr == 0xFFFF)
  }

  predicate AllAllowed(log: seq<Request>) {
    forall k :: 0 <= k < |log| ==> Allowed(log[k])
  }

  lemma {:induction false} AllowedConcat(a: seq<Request>, b: seq<Request>)
    requires AllAllowed(a) && AllAllowed(b)
    ensures AllAllowed(a + b)
  {}

  lemma {:induction false} SinglesAllowed(bus: Bus, n: nat, items: seq<Item>, k: nat)
    requires k <= |items|
    ensures AllAllowed(SinglesTo(bus, n, items, k).log)
  {
    if k > 0 {
      SinglesAllowed(bus, n, items, k - 1);
      AllowedConcat(SinglesTo(bus, n, items, k - 1).log, SingleCalls(items[k - 1].metric));
    }
  }

  lemma {:induction false} RangeAllowed(bus: Bus, n: nat, kind: RegisterType, r: MergedRange)
    requires SoundRange(r) && IsRegister(kind)
    ensures AllAllowed(RangeRun(bus, n, kind, r).log)
  {
    DecodedIsFree(Registers(bus, kind, r.start, r.Count()), r.start, r.members, |r.members|);
    SinglesAllowed(bus, n + 1, r.members, |r.members|);
    AllowedConcat([RangeRequest(kind, r)], SinglesTo(bus, n + 1, r.members, |r.members|).log);
  }

  lemma {:induction false} ChainAllowed(runs: seq<Run>, k: nat)
    requires k <= |runs| && forall j :: 0 <= j < k ==> AllAllowed(runs[j].log)
    ensures AllAllowed(Chain(runs, k).log)
  {
    if k > 0 {
      ChainAllowed(runs, k - 1);
      AllowedConcat(Chain(runs, k - 1).log, runs[k - 1].log);
    }
  }

  lemma {:induction false} RangesAllowed(bus: Bus, n: nat, kind: RegisterType, ranges: seq<MergedRange>)
    requires AllSound(ranges) && IsRegister(kind)
    ensures AllAllowed(RangesTo(bus, n, kind, ranges, |ranges|).log)
  {
    var runs := RangeRuns(bus, n, kind, ranges, |ranges|);
    forall j | 0 <= j < |ranges| ensures AllAllowed(runs[j].log) {
      RunAt(bus, n, kind, ranges, j, |ranges|);
      RangeAllowed(bus, CallOf(bus, n, kind, ranges, j), kind, ranges[j]);
    }
    ChainAllowed(runs, |ranges|);
  }

  lemma {:induction false} ClassAllowed(bus: Bus, n: nat, metrics: seq<MetricConfig>, c: Class)
    requires c.ByRegister? ==> IsRegister(c.kind)
    ensures AllAllowed(ClassRun(bus, n, metrics, c).log)
  {
    match c
    case Unaddressed =>
      UnaddressedIsFree(metrics, |metrics|);
    case ByRegister(kind) =>
      RangesForAreRanges(metrics, kind);
      RangesAllowed(bus, n, kind, RangesFor(metrics, kind));
    case ByBit =>
      var items := Pick(metrics, |metrics|, ByBit);
      SinglesAllowed(bus, n, items, |items|);
  }

  /** Every request of a batch is within the protocol's limits, whatever the
      metrics. */
  lemma {:induction false} BatchRequestsAllowed(bus: Bus, n: nat, metrics: seq<MetricConfig>)
    ensures AllAllowed(BatchRun(bus, n, metrics).log)
  {
    var runs := ClassRuns(bus, n, metrics, CLASSES);
    forall j | 0 <= j < CLASSES ensures AllAllowed(runs[j].log) {
      StageAt(bus, n, metrics, j, CLASSES);
      ClassAllowed(bus, StageOf(bus, n, metrics, j), metrics, Serve(j));
    }
    ChainAllowed(runs, CLASSES);
  }

  /** Is every request of the log within the limits? */
  predicate AllValid(log: seq<Request>) {
    forall k :: 0 <= k < |log| ==> InLimits(log[k])
  }

  lemma {:induction false} ValidConcat(a: seq<Request>, b: seq<Request>)
    ensures AllValid(a + b) <==> AllValid(a) && AllValid(b)
  {
    if AllValid(a + b) {
      forall k | 0 <= k < |a| ensures ValidCount(a[k]) { assert (a + b)[k] == a[k]; }
      forall k | 0 <= k < |b| ensures ValidCount(b[k]) { assert (a + b)[|a| + k] == b[k]; }
    }
  }

  lemma {:induction false} SinglesValid(bus: Bus, n: nat, items: seq<Item>, k: nat)
    requires k <= |items|
    ensures AllValid(SinglesTo(bus, n, items, k).log)
  {
    if k > 0 {
      SinglesValid(bus, n, items, k - 1);
      ValidConcat(SinglesTo(bus, n, items, k - 1).log, SingleCalls(items[k - 1].metric));
    }
  }

  lemma {:induction false} RangeValid(bus: Bus, n: nat, kind: RegisterType, r: MergedRange)
    requires SoundRange(r) && IsRegister(kind)
    ensures AllValid(RangeRun(bus, n, kind, r).log) <==> r.start != 0xFFFF
  {
    var req := [RangeRequest(kind, r)];
    assert AllValid(req) <==> InLimits(req[0]);
    if Accepts(bus, n, RangeRequest(kind, r)) {
      var decoded := DecodedTo(Registers(bus, kind, r.start, r.Count()), r.start, r.members, |r.members|);
      DecodedIsFree(Registers(bus, kind, r.start, r.Count()), r.start, r.members, |r.members|);
      ValidConcat(req, decoded.log);
    } else {
      SinglesValid(bus, n + 1, r.members, |r.members|);
      ValidConcat(req, SinglesTo(bus, n + 1, r.members, |r.members|).log);
    }
  }

  lemma {:induction false} ChainValid(runs: seq<Run>, k: nat)
    requires k <= |runs|
    ensures AllValid(Chain(runs, k).log) <==> forall j :: 0 <= j < k ==> AllValid(runs[j].log)
  {
    if k > 0 {
      ChainValid(runs, k - 1);
      ValidConcat(Chain(runs, k - 1).log, runs[k - 1].log);
    }
  }

  /** No range starts at register 65535. */
  predicate NoEmptyRange(metrics: seq<MetricConfig>, kind: RegisterType) {
    forall k :: 0 <= k < |RangesFor(metrics, kind)| ==> RangesFor(metrics, kind)[k].start != 0xFFFF
  }

  lemma {:induction false} KindValid(bus: Bus, n: nat, metrics: seq<MetricConfig>, kind: RegisterType)
    requires IsRegister(kind)
    ensures AllValid(ClassRun(bus, n, metrics, ByRegister(kind)).log) <==> NoEmptyRange(metrics, kind)
  {
    var ranges := RangesFor(metrics, kind);
    RangesForAreRanges(metrics, kind);
    var runs := RangeRuns(bus, n, kind, ranges, |ranges|);
    forall j | 0 <= j < |ranges| ensures AllValid(runs[j].log) <==> ranges[j].start != 0xFFFF {
      RunAt(bus, n, kind, ranges, j, |ranges|);
      RangeValid(bus, CallOf(bus, n, kind, ranges, j), kind, ranges[j]);
    }
    ChainValid(runs, |ranges|);
  }

  predicate ClassValid(metrics: seq<MetricConfig>, c: Class) {
    c.ByRegister? ==> NoEmptyRange(metrics, c.kind)
  }

  lemma {:induction false} ClassIsValid(bus: Bus, n: nat, metrics: seq<MetricConfig>, c: Class)
    requires c.ByRegister? ==> IsRegister(c.kind)
    ensures AllValid(ClassRun(bus, n, metrics, c).log) <==> ClassValid(metrics, c)
  {
    match c
    case Unaddressed =>
      UnaddressedIsFree(metrics, |metrics|);
    case ByRegister(kind) =>
      KindValid(bus, n, metrics, kind);
    case ByBit =>
      var items := Pick(metrics, |metrics|, ByBit);
      SinglesValid(bus, n, items, |items|);
  }

  lemma {:induction false} StagesValid(bus: Bus, n: nat, metrics: seq<MetricConfig>)
    ensures AllValid(BatchRun(bus, n, metrics).log) <==> forall j :: 0 <= j < CLASSES ==> ClassValid(metrics, Serve(j))
  {
    var runs := ClassRuns(bus, n, metrics, CLASSES);
    forall j | 0 <= j < CLASSES ensures AllValid(runs[j].log) <==> ClassValid(metrics, Serve(j)) {
      StageAt(bus, n, metrics, j, CLASSES);
      ClassIsValid(bus, StageOf(bus, n, metrics, j), metrics, Serve(j));
    }
    ChainValid(runs, CLASSES);
  }

  /** The empty read is made exactly if some range starts at register 65535; without
      one, every request of the batch is valid, on whatever device. */
  lemma {:induction false} ValidIffNoEmptyRange(bus: Bus, n: nat, metrics: seq<MetricConfig>)
    ensures AllValid(BatchRun(bus, n, metrics).log) <==> NoEmptyRange(metrics, Holding) && NoEmptyRange(metrics, Input)
  {
    StagesValid(bus, n, metrics);
    assert ClassValid(metrics, Serve(1)) == NoEmptyRange(metrics, Holding);
    assert ClassValid(metrics, Serve(2)) == NoEmptyRange(metrics, Input);
  }

  // ----- the order of the calls -----

  /** Holding registers are read first, then input registers, then bits. */
  function Rank(kind: RegisterType): nat {
    match kind
    case Holding => 0
    case Input => 1
    case Coil | Discrete => 2
  }

  predicate AllRanked(log: seq<Request>, rank: nat) {
    forall k :: 0 <= k < |log| ==> Rank(log[k].kind) == rank
  }

  predicate InRankOrder(log: seq<Request>) {
    forall i, j :: 0 <= i < j < |log| ==> Rank(log[i].kind) <= Rank(log[j].kind)
  }

  lemma {:induction false} RankedConcat(a: seq<Request>, b: seq<Request>, rank: nat)
    requires AllRanked(a, rank) && AllRanked(b, rank)
    ensures AllRanked(a + b, rank)
  {
  }

  lemma {:induction false} SinglesRanked(bus: Bus, n: nat, items: seq<Item>, k: nat, rank: nat)
    requires k <= |items| && forall j :: 0 <= j < |items| ==> Rank(KindOf(items[j].metric)) == rank
    ensures AllRanked(SinglesTo(bus, n, items, k).log, rank)
  {
    if k > 0 {
      SinglesRanked(bus, n, items, k - 1, rank);
      RankedConcat(SinglesTo(bus, n, items, k - 1).log, SingleCalls(items[k - 1].metric), rank);
    }
  }

  lemma {:induction false} RangeRanked(bus: Bus, n: nat, kind: RegisterType, r: MergedRange, metrics: seq<MetricConfig>)
    requires RangeOf(r, metrics, kind)
    ensures AllRanked(RangeRun(bus, n, kind, r).log, Rank(kind))
  {
    var req := [RangeRequest(kind, r)];
    if Accepts(bus, n, RangeRequest(kind, r)) {
      var decoded := DecodedTo(Registers(bus, kind, r.start, r.Count()), r.start, r.members, |r.members|);
      DecodedIsFree(Registers(bus, kind, r.start, r.Count()), r.start, r.members, |r.members|);
      RankedConcat(req, decoded.log, Rank(kind));
    } else {
      forall j | 0 <= j < |r.members| ensures KindOf(r.members[j].metric) == kind {
        assert IsItemOf(r.members[j], metrics, ByRegister(kind));
      }
      SinglesRanked(bus, n + 1, r.members, |r.members|, Rank(kind));
      RankedConcat(req, SinglesTo(bus, n + 1, r.members, |r.members|).log, Rank(kind));
    }
  }

  lemma {:induction false} ChainRanked(runs: seq<Run>, k: nat, rank: nat)
    requires k <= |runs| && forall j :: 0 <= j < k ==> AllRanked(runs[j].log, rank)
    ensures AllRanked(Chain(runs, k).log, rank)
  {
    if k > 0 {
      ChainRanked(runs, k - 1, rank);
      RankedConcat(Chain(runs, k - 1).log, runs[k - 1].log, rank);
    }
  }

  lemma {:induction false} KindRanked(bus: Bus, n: nat, metrics: seq<MetricConfig>, kind: RegisterType)
    requires IsRegister(kind)
    ensures AllRanked(ClassRun(bus, n, metrics, ByRegister(kind)).log, Rank(kind))
  {
    var ranges := RangesFor(metrics, kind);
    RangesForAreRanges(metrics, kind);
    var runs := RangeRuns(bus, n, kind, ranges, |ranges|);
    forall j | 0 <= j < |ranges| ensures AllRanked(runs[j].log, Rank(kind)) {
      RunAt(bus, n, kind, ranges, j, |ranges|);
      assert RangeOf(ranges[j], metrics, kind);
      RangeRanked(bus, CallOf(bus, n, kind, ranges, j), kind, ranges[j], metrics);
    }
    ChainRanked(runs, |ranges|, Rank(kind));
  }

  lemma {:induction false} BitsRanked(bus: Bus, n: nat, metrics: seq<MetricConfig>)
    ensures AllRanked(ClassRun(bus, n, metrics, ByBit).log, 2)
  {
    var items := Pick(metrics, |metrics|, ByBit);
    PickIsOf(metrics, |metrics|, ByBit);
    forall j | 0 <= j < |items| ensures Rank(KindOf(items[j].metric)) == 2 {
      assert IsItemOf(items[j], metrics, ByBit);
    }
    SinglesRanked(bus, n, items, |items|, 2);
  }

  /** The k-th run makes calls of its own rank only, and the ranks ascend. */
  lemma {:induction false} ChainInOrder(runs: seq<Run>, k: nat, ranks: seq<nat>)
    requires k <= |runs| == |ranks|
    requires forall i, j :: 0 <= i < j < |ranks| ==> ranks[i] <= ranks[j]
    requires forall j :: 0 <= j < k ==> AllRanked(runs[j].log, ranks[j])
    ensures InRankOrder(Chain(runs, k).log)
    ensures forall i :: 0 <= i < |Chain(runs, k).log| ==> k > 0 && Rank(Chain(runs, k).log[i].kind) <= ranks[k - 1]
  {
    if k > 0 {
      ChainInOrder(runs, k - 1, ranks);
    }
  }

  /** Whatever fails, a batch reads holding registers before input registers and both
      before bits. */
  lemma {:induction false} CallsAreOrdered(bus: Bus, n: nat, metrics: seq<MetricConfig>)
    ensures InRankOrder(BatchRun(bus, n, metrics).log)
  {
    var runs := ClassRuns(bus, n, metrics, CLASSES);
    var ranks: seq<nat> := [0, 0, 1, 2];
    forall j | 0 <= j < CLASSES ensures AllRanked(runs[j].log, ranks[j]) {
      StageAt(bus, n, metrics, j, CLASSES);
      var first := StageOf(bus, n, metrics, j);
      if j == 0 {
        UnaddressedIsFree(metrics, |metrics|);
      } else if j < 3 {
        KindRanked(bus, first, metrics, Serve(j).kind);
      } else {
        BitsRanked(bus, first, metrics);
      }
    }
    ChainInOrder(runs, CLASSES, ranks);
  }

  // ----- the stable sort -----

  /** Sorted by address, equal addresses in input order. */
  predicate StablySorted(items: seq<Item>) {
    forall i, j :: 0 <= i < j < |items| ==>
      items[i].addr < items[j].addr || (items[i].addr == items[j].addr && items[i].idx < items[j].idx)
  }

  predicate AllBefore(items: seq<Item>, idx: nat) {
    forall k :: 0 <= k < |items| ==> items[k].idx < idx
  }

  /** Every item comes before `last` in the stable order. */
  predicate AllPrecede(items: seq<Item>, last: Item) {
    forall k :: 0 <= k < |items| ==>
      items[k].addr < last.addr || (items[k].addr == last.addr && items[k].idx < last.idx)
  }

  lemma {:induction false} InsertPrecedes(items: seq<Item>, x: Item, last: Item)
    requires AllPrecede(items, last) && x.addr < last.addr
    ensures AllPrecede(InsertByAddr(items, x), last)
  {
    if items == [] || items[|items| - 1].addr <= x.addr {
    } else {
      InsertPrecedes(items[..|items| - 1], x, last);
    }
  }

  lemma {:induction false} InsertIsStable(items: seq<Item>, x: Item)
    requires StablySorted(items) && AllBefore(items, x.idx)
    ensures StablySorted(InsertByAddr(items, x)) && AllBefore(InsertByAddr(items, x), x.idx + 1)
  {
    if items == [] || items[|items| - 1].addr <= x.addr {
    } else {
      var front, last := items[..|items| - 1], items[|items| - 1];
      InsertIsStable(front, x);
      InsertPrecedes(front, x, last);
    }
  }

  lemma {:induction false} SortIsStable(items: seq<Item>, n: nat)
    requires n <= |items| && forall i, j :: 0 <= i < j < |items| ==> items[i].idx < items[j].idx
    ensures StablySorted(SortTo(items, n)) && (n < |items| ==> AllBefore(SortTo(items, n), items[n].idx))
  {
    if n > 0 {
      SortIsStable(items, n - 1);
      InsertIsStable(SortTo(items, n - 1), items[n - 1]);
    }
  }

  // ----- the last register -----

  const Wide := MetricConfig("wide", "", Gauge, Some(Holding), Some(65534), U32, BigEndian, 1.0, 0.0, "")
  const Last := MetricConfig("last", "", Gauge, Some(Holding), Some(65535), U16, BigEndian, 1.0, 0.0, "")

  lemma {:induction false} OneRange(m: MetricConfig)
    requires m.address.Some? && KindOf(m) == Holding
    ensures RangesFor([m], Holding) == [Open(ItemOf(0, m))]
  {
    var metrics, x := [m], ItemOf(0, m);
    assert Pick(metrics, 0, ByRegister(Holding)) == [];
    assert Pick(metrics, 1, ByRegister(Holding)) == [x];
    assert SortTo([x], 0) == [] && SortTo([x], 1) == [x];
    assert CoalescedTo([x], 0) == [];
    assert CoalescedTo([x], 1) == [Open(x)];
  }

  /** A 32-bit metric in the last two registers is lost by a device that answers
      everything, although reading it alone gives its value. */
  lemma {:induction false} LastRegisterIsLost(bus: Bus, n: nat)
    requires AnswersAll(bus)
    ensures SingleOutcome(bus, n, Wide).Ok?
    ensures Results(bus, n, [Wide])[0] == Err(OutOfBounds)
  {
    var metrics := [Wide];
    OneRange(Wide);
    assert !InEmptyRange(metrics, Holding, 0);
    UnsafeMetricIsLost(bus, n, metrics, 0);
  }

  /** A single register read at 65535 alone survives: its empty range read is
      rejected and the fallback delivers it. */
  lemma {:induction false} LastRegisterAloneSurvives(bus: Bus, n: nat)
    requires AlwaysReadable(bus, Last)
    ensures Results(bus, n, [Last])[0] == TrueReading(bus, Last) && TrueReading(bus, Last).Ok?
  {
    var metrics := [Last];
    OneRange(Last);
    var r := RangesFor(metrics, Holding)[0];
    assert r.members[0].idx == 0;
    assert HoldsMember(r, 0) && InEmptyRange(metrics, Holding, 0);
    SafeMetricIsDelivered(bus, n, metrics, 0);
  }
}
