/** Reading all metrics of a Modbus device with merged range reads and
    individual fallbacks (src/reader/modbus/batch.rs:74-287). The methods are
    the loops of the source; the functions say what they do call by call. */
module BatchRead {
  import opened Wrappers
  import opened MetricTypes
  import opened Decoder
  import opened Bus
  import opened Coalesce

  // ----- one metric -----

  function FromDecoder(r: Result<Reading, DecodeError>): Outcome {
    match r
    case Ok(v) => Ok(v)
    case Err(e) => Err(Undecodable(e))
  }

  function KindOf(m: MetricConfig): RegisterType {
    match m.registerType
    case Some(k) => k
    case None => Holding
  }

  predicate IsRegister(k: RegisterType) { k.Holding? || k.Input? }

  /** A metric's value out of the registers read from `rangeStart` on. */
  function DecodeMetric(m: MetricConfig, regs: seq<word>, rangeStart: word): Outcome {
    match m.address
    case None => Err(NoAddress)
    case Some(addr) =>
      var count := RegistersNeeded(m.dataType);
      if addr < rangeStart then Err(BeforeRange)
      else
        var from := addr - rangeStart;
        if from + count > |regs| then Err(OutOfBounds)
        else FromDecoder(Decode(regs[from..from + count], m.dataType, m.byteOrder, m.scale, m.offset))
  }

  /** The request that reads this metric alone. */
  function SingleRequest(m: MetricConfig): Request
    requires m.address.Some?
  {
    Request(KindOf(m), m.address.value, if IsRegister(KindOf(m)) then RegistersNeeded(m.dataType) else 1)
  }

  /** The value of a metric, from the response to its own request. */
  function FromResponse(m: MetricConfig, response: seq<word>): Outcome {
    if IsRegister(KindOf(m)) then
      FromDecoder(Decode(response, m.dataType, m.byteOrder, m.scale, m.offset))
    else if response == [] then Err(EmptyResponse)
    else Ok(Reading(Whole(if response[0] != 0 then 1 else 0), m.scale, m.offset))
  }

  /** What the device holds for this metric. */
  function TrueReading(bus: Bus, m: MetricConfig): Outcome
    requires m.address.Some?
  {
    var req := SingleRequest(m);
    FromResponse(m, Registers(bus, req.kind, req.addr, req.count))
  }

  function SingleOutcome(bus: Bus, n: nat, m: MetricConfig): Outcome {
    if m.address.None? then Err(NoAddress)
    else if Accepts(bus, n, SingleRequest(m)) then TrueReading(bus, m)
    else Err(Refused)
  }

  function SingleCalls(m: MetricConfig): seq<Request> {
    if m.address.None? then [] else [SingleRequest(m)]
  }

  /** Do the registers of this kind from this address on carry the raw value? */
  ghost predicate RegistersCarry(bus: Bus, kind: RegisterType, addr: int, dt: DataType, order: ByteOrder, raw: Raw) {
    Carries(Registers(bus, kind, addr, RegistersNeeded(dt)), dt, order, raw)
  }

  /** Is this reading what the device holds for the metric, with the metric's own scale
      and offset? Without a register type a metric is a holding register. */
  ghost predicate Held(bus: Bus, m: MetricConfig, v: Reading) {
    m.address.Some? && v.scale == m.scale && v.offset == m.offset &&
    match m.registerType
    case Some(Coil) => v.raw == Whole(if bus.contents(Coil, m.address.value) != 0 then 1 else 0)
    case Some(Discrete) => v.raw == Whole(if bus.contents(Discrete, m.address.value) != 0 then 1 else 0)
    case Some(Input) => RegistersCarry(bus, Input, m.address.value, m.dataType, m.byteOrder, v.raw)
    case _ => RegistersCarry(bus, Holding, m.address.value, m.dataType, m.byteOrder, v.raw)
  }

  lemma {:induction false} TrueReadingIsHeld(bus: Bus, m: MetricConfig, v: Reading)
    requires m.address.Some?
    ensures TrueReading(bus, m) == Ok(v) <==> Held(bus, m, v)
  {
    var req := SingleRequest(m);
    if IsRegister(req.kind) {
      var regs := Registers(bus, req.kind, req.addr, req.count);
      DecodeIsCarried(regs, m.dataType, m.byteOrder, m.scale, m.offset, v.raw);
    }
  }

  /** The one request that reads a metric alone: of its kind, at its address, one bit or
      as many registers as its type takes. */
  predicate Asks(m: MetricConfig, req: Request) {
    && m.address == Some(req.addr)
    && (m.registerType == Some(req.kind) || (m.registerType.None? && req.kind.Holding?))
    && req.count == if req.kind.Coil? || req.kind.Discrete? then 1 else RegistersNeeded(m.dataType)
  }

  method ReadSingle(dev: Device, m: MetricConfig) returns (r: Outcome)
    modifies dev`log
    ensures r == SingleOutcome(dev.bus, |old(dev.log)|, m)
    ensures dev.log == old(dev.log) + SingleCalls(m)
    ensures m.address.None? ==> r == Err(NoAddress) && dev.log == old(dev.log)
    ensures m.address.Some? ==>
              && |dev.log| == |old(dev.log)| + 1 && dev.log[..|old(dev.log)|] == old(dev.log)
              && var req := dev.log[|old(dev.log)|];
                 Asks(m, req) && if Accepts(dev.bus, |old(dev.log)|, req) then r.Ok? && Held(dev.bus, m, r.value) else r == Err(Refused)
  {
    if m.address.Some? {
      ghost var truth := TrueReading(dev.bus, m);
      if truth.Ok? {
        TrueReadingIsHeld(dev.bus, m, truth.value);
      }
    }
    if m.address.None? {
      return Err(NoAddress);
    }
    var addr, count, kind := m.address.value, RegistersNeeded(m.dataType), KindOf(m);
    match kind {
      case Holding | Input =>
        var regs := dev.Read(Request(kind, addr, count));
        match regs {
          case Ok(rs) => r := FromDecoder(Decode(rs, m.dataType, m.byteOrder, m.scale, m.offset));
          case Err(e) => r := Err(e);
        }
      case Coil | Discrete =>
        var bits := dev.Read(Request(kind, addr, 1));
        match bits {
          case Ok(bs) =>
            if |bs| == 0 {
              r := Err(EmptyResponse);
            } else {
              r := Ok(Reading(Whole(if bs[0] != 0 then 1 else 0), m.scale, m.offset));
            }
          case Err(e) => r := Err(e);
        }
    }
  }

  // ----- sorting by address -----

  /** Inserts after every item of the same address: the sort is stable. */
  function InsertByAddr(items: seq<Item>, x: Item): (r: seq<Item>)
    ensures |r| == |items| + 1
  {
    if items == [] || items[|items| - 1].addr <= x.addr then items + [x]
    else InsertByAddr(items[..|items| - 1], x) + [items[|items| - 1]]
  }

  function SortTo(items: seq<Item>, n: nat): seq<Item>
    requires n <= |items|
  {
    if n == 0 then [] else InsertByAddr(SortTo(items, n - 1), items[n - 1])
  }

  function SortByAddr(items: seq<Item>): seq<Item> { SortTo(items, |items|) }

  // ----- sorting metrics into classes -----

  datatype Class = Unaddressed | ByRegister(kind: RegisterType) | ByBit

  function ClassOf(m: MetricConfig): Class {
    if m.address.None? then Unaddressed
    else if IsRegister(KindOf(m)) then ByRegister(KindOf(m))
    else ByBit
  }

  function ItemOf(idx: nat, m: MetricConfig): Item {
    Item(idx, m, if m.address.Some? then m.address.value else 0, RegistersNeeded(m.dataType))
  }

  /** The items of one class among the first n metrics, in input order. */
  function Pick(metrics: seq<MetricConfig>, n: nat, c: Class): seq<Item>
    requires n <= |metrics|
  {
    if n == 0 then []
    else if ClassOf(metrics[n - 1]) == c then Pick(metrics, n - 1, c) + [ItemOf(n - 1, metrics[n - 1])]
    else Pick(metrics, n - 1, c)
  }

  /** The merged ranges read for one register kind. */
  function RangesFor(metrics: seq<MetricConfig>, kind: RegisterType): seq<MergedRange> {
    Coalesced(SortByAddr(Pick(metrics, |metrics|, ByRegister(kind))))
  }

  // ----- call by call -----

  /** The requests issued and the result slots written, both in order. */
  datatype Run = Run(log: seq<Request>, writes: seq<(nat, Outcome)>) {
    function Then(next: Run): Run { Run(log + next.log, writes + next.writes) }
  }

  const Idle := Run([], [])

  predicate Addressed(items: seq<Item>) {
    forall k :: 0 <= k < |items| ==> items[k].metric.address.Some?
  }

  /** Individual reads of the first k items; the next call is the n-th. */
  function SinglesTo(bus: Bus, n: nat, items: seq<Item>, k: nat): Run
    requires k <= |items|
  {
    if k == 0 then Idle
    else
      var before := SinglesTo(bus, n, items, k - 1);
      var x := items[k - 1];
      before.Then(Run(SingleCalls(x.metric), [(x.idx, SingleOutcome(bus, n + |before.log|, x.metric))]))
  }

  /** The first k members decoded out of one range response. */
  function DecodedTo(regs: seq<word>, start: word, items: seq<Item>, k: nat): Run
    requires k <= |items|
  {
    if k == 0 then Idle
    else
      var x := items[k - 1];
      DecodedTo(regs, start, items, k - 1).Then(Run([], [(x.idx, DecodeMetric(x.metric, regs, start))]))
  }

  function RangeRequest(kind: RegisterType, r: MergedRange): Request {
    Request(kind, r.start, r.Count())
  }

  function RangeRun(bus: Bus, n: nat, kind: RegisterType, r: MergedRange): Run {
    var req := RangeRequest(kind, r);
    if Accepts(bus, n, req) then
      Run([req], []).Then(DecodedTo(Registers(bus, kind, r.start, r.Count()), r.start, r.members, |r.members|))
    else
      Run([req], []).Then(SinglesTo(bus, n + 1, r.members, |r.members|))
  }

  /** The first k runs, one after the other. */
  function Chain(runs: seq<Run>, k: nat): Run
    requires k <= |runs|
  {
    if k == 0 then Idle else Chain(runs, k - 1).Then(runs[k - 1])
  }

  /** What the first k ranges do; the first call is the n-th, each range goes on from
      the call at which the one before stopped. */
  function RangeRuns(bus: Bus, n: nat, kind: RegisterType, ranges: seq<MergedRange>, k: nat): (r: seq<Run>)
    requires k <= |ranges|
    ensures |r| == k
  {
    if k == 0 then []
    else
      var before := RangeRuns(bus, n, kind, ranges, k - 1);
      before + [RangeRun(bus, n + |Chain(before, k - 1).log|, kind, ranges[k - 1])]
  }

  function RangesTo(bus: Bus, n: nat, kind: RegisterType, ranges: seq<MergedRange>, k: nat): Run
    requires k <= |ranges|
  {
    Chain(RangeRuns(bus, n, kind, ranges, k), k)
  }

  /** The number of the call that reads the k-th range. */
  function CallOf(bus: Bus, n: nat, kind: RegisterType, ranges: seq<MergedRange>, k: nat): nat
    requires k <= |ranges|
  {
    n + |RangesTo(bus, n, kind, ranges, k).log|
  }

  lemma {:induction false} ChainExtended(runs: seq<Run>, next: Run, k: nat)
    requires k <= |runs|
    ensures Chain(runs + [next], k) == Chain(runs, k)
  {
    if k > 0 {
      ChainExtended(runs, next, k - 1);
    }
  }

  /** The runs of the first j ranges stay what they are when more ranges follow. */
  lemma {:induction false} RunAt(bus: Bus, n: nat, kind: RegisterType, ranges: seq<MergedRange>, j: nat, k: nat)
    requires j < k <= |ranges|
    ensures RangeRuns(bus, n, kind, ranges, k)[j] == RangeRun(bus, CallOf(bus, n, kind, ranges, j), kind, ranges[j])
  {
    if j < k - 1 {
      RunAt(bus, n, kind, ranges, j, k - 1);
      RunStays(bus, n, kind, ranges, j, k - 1, k);
    } else {
      RunIsNew(bus, n, kind, ranges, j, k);
    }
  }

  lemma {:induction false} RunStays(bus: Bus, n: nat, kind: RegisterType, ranges: seq<MergedRange>, i: nat, j: nat, k: nat)
    requires i < j && k == j + 1 <= |ranges|
    ensures RangeRuns(bus, n, kind, ranges, k)[i] == RangeRuns(bus, n, kind, ranges, j)[i]
  {
  }

  lemma {:induction false} RunIsNew(bus: Bus, n: nat, kind: RegisterType, ranges: seq<MergedRange>, j: nat, k: nat)
    requires k == j + 1 <= |ranges|
    ensures RangeRuns(bus, n, kind, ranges, k)[j] == RangeRun(bus, CallOf(bus, n, kind, ranges, j), kind, ranges[j])
  {
  }

  lemma {:induction false} RangesNext(bus: Bus, n: nat, kind: RegisterType, ranges: seq<MergedRange>, j: nat, k: nat)
    requires k == j + 1 <= |ranges|
    ensures RangesTo(bus, n, kind, ranges, k)
         == RangesTo(bus, n, kind, ranges, j).Then(RangeRun(bus, CallOf(bus, n, kind, ranges, j), kind, ranges[j]))
  {
    var before := RangeRuns(bus, n, kind, ranges, j);
    ChainExtended(before, RangeRun(bus, n + |Chain(before, j).log|, kind, ranges[j]), j);
  }

  /** The slots of metrics without an address are filled without a call. */
  function UnaddressedTo(metrics: seq<MetricConfig>, n: nat): Run
    requires n <= |metrics|
  {
    if n == 0 then Idle
    else if metrics[n - 1].address.None? then UnaddressedTo(metrics, n - 1).Then(Run([], [(n - 1, Err(NoAddress))]))
    else UnaddressedTo(metrics, n - 1)
  }

  /** The slots after a sequence of writes. */
  function Apply(slots: seq<Option<Outcome>>, writes: seq<(nat, Outcome)>): (r: seq<Option<Outcome>>)
    ensures |r| == |slots|
  {
    if writes == [] then slots
    else
      var before, w := Apply(slots, writes[..|writes| - 1]), writes[|writes| - 1];
      if w.0 < |slots| then before[w.0 := Some(w.1)] else before
  }

  /** Is this the item of a metric of class c? */
  predicate IsItemOf(x: Item, metrics: seq<MetricConfig>, c: Class) {
    x.idx < |metrics| && x == ItemOf(x.idx, metrics[x.idx]) && ClassOf(metrics[x.idx]) == c
  }

  predicate AreItemsOf(items: seq<Item>, metrics: seq<MetricConfig>, c: Class) {
    forall k :: 0 <= k < |items| ==> IsItemOf(items[k], metrics, c)
  }

  predicate RangesOf(ranges: seq<MergedRange>, metrics: seq<MetricConfig>, kind: RegisterType) {
    forall k :: 0 <= k < |ranges| ==> RangeOf(ranges[k], metrics, kind)
  }

  /** A range of metrics of one register kind. */
  predicate RangeOf(r: MergedRange, metrics: seq<MetricConfig>, kind: RegisterType) {
    && r.start <= r.end
    && r.members != []
    && AreItemsOf(r.members, metrics, ByRegister(kind))
    && forall k :: 0 <= k < |r.members| ==> Contains(r, r.members[k])
  }

  // ----- the classes, sorted and merged -----

  lemma {:induction false} PickIsOf(metrics: seq<MetricConfig>, n: nat, c: Class)
    requires n <= |metrics|
    ensures AreItemsOf(Pick(metrics, n, c), metrics, c)
  {
    if n == 0 {
    } else {
      PickIsOf(metrics, n - 1, c);
    }
  }

  lemma {:induction false} InsertKeeps(items: seq<Item>, x: Item, metrics: seq<MetricConfig>, c: Class)
    requires Sorted(items) && AreItemsOf(items, metrics, c) && IsItemOf(x, metrics, c)
    ensures Sorted(InsertByAddr(items, x)) && AreItemsOf(InsertByAddr(items, x), metrics, c)
    ensures items != [] ==>
              var last := items[|items| - 1].addr; InsertByAddr(items, x)[|items|].addr == (if last <= x.addr then x.addr else last)
  {
    if items == [] || items[|items| - 1].addr <= x.addr {
    } else {
      InsertKeeps(items[..|items| - 1], x, metrics, c);
    }
  }

  lemma {:induction false} SortKeeps(items: seq<Item>, n: nat, metrics: seq<MetricConfig>, c: Class)
    requires AreItemsOf(items, metrics, c) && n <= |items|
    ensures Sorted(SortTo(items, n)) && AreItemsOf(SortTo(items, n), metrics, c)
  {
    if n == 0 {
    } else {
      SortKeeps(items, n - 1, metrics, c);
      InsertKeeps(SortTo(items, n - 1), items[n - 1], metrics, c);
    }
  }

  lemma {:induction false} MembersAreItems(ranges: seq<MergedRange>, k: nat, metrics: seq<MetricConfig>, c: Class)
    requires k < |ranges| && AreItemsOf(Flatten(ranges), metrics, c)
    ensures AreItemsOf(ranges[k].members, metrics, c)
  {
    var front, last := ranges[..|ranges| - 1], ranges[|ranges| - 1].members;
    var all := Flatten(ranges);
    assert all == Flatten(front) + last;
    if k == |ranges| - 1 {
      forall j | 0 <= j < |last| ensures IsItemOf(last[j], metrics, c) {
        assert last[j] == all[|Flatten(front)| + j];
      }
    } else {
      forall j | 0 <= j < |Flatten(front)| ensures IsItemOf(Flatten(front)[j], metrics, c) {
        assert Flatten(front)[j] == all[j];
      }
      MembersAreItems(front, k, metrics, c);
    }
  }

  /** The ranges of one kind hold metrics of that kind, and
      together hold exactly the sorted metrics of that kind. */
  lemma {:induction false} RangesForAreRanges(metrics: seq<MetricConfig>, kind: RegisterType)
    ensures RangesOf(RangesFor(metrics, kind), metrics, kind) && AllSound(RangesFor(metrics, kind))
    ensures Flatten(RangesFor(metrics, kind)) == SortByAddr(Pick(metrics, |metrics|, ByRegister(kind)))
  {
    var c, picked := ByRegister(kind), Pick(metrics, |metrics|, ByRegister(kind));
    var items, ranges := SortByAddr(picked), RangesFor(metrics, kind);
    PickIsOf(metrics, |metrics|, c);
    SortKeeps(picked, |picked|, metrics, c);
    assert Sized(items) by {
      forall k | 0 <= k < |items| ensures 1 <= items[k].count <= MAX_REGISTERS_PER_READ {
        assert IsItemOf(items[k], metrics, c);
      }
    }
    CoalescedIsSound(items);
    forall k | 0 <= k < |ranges| ensures RangeOf(ranges[k], metrics, kind) {
      MembersAreItems(ranges, k, metrics, c);
      assert SoundRange(ranges[k]);
    }
  }

  lemma {:induction false} ItemsAreAddressed(items: seq<Item>, metrics: seq<MetricConfig>, c: Class)
    requires AreItemsOf(items, metrics, c) && c != Unaddressed
    ensures Addressed(items) && forall k :: 0 <= k < |items| ==> items[k].idx < |metrics|
  {
    forall k | 0 <= k < |items| ensures items[k].metric.address.Some? && items[k].idx < |metrics| {
      assert IsItemOf(items[k], metrics, c);
    }
  }

  // ----- the whole batch -----

  const CLASSES: nat := 4

  /** The classes in the order in which they are served. */
  function Serve(k: nat): Class
    requires k < CLASSES
  {
    if k == 0 then Unaddressed else if k == 1 then ByRegister(Holding) else if k == 2 then ByRegister(Input) else ByBit
  }

  /** Everything done for one class; the first call is the n-th. Registers are read in
      merged ranges, bits one by one, and metrics without an address not at all. */
  function ClassRun(bus: Bus, n: nat, metrics: seq<MetricConfig>, c: Class): Run {
    match c
    case Unaddressed => UnaddressedTo(metrics, |metrics|)
    case ByRegister(kind) =>
      var ranges := RangesFor(metrics, kind);
      RangesTo(bus, n, kind, ranges, |ranges|)
    case ByBit =>
      var items := Pick(metrics, |metrics|, ByBit);
      SinglesTo(bus, n, items, |items|)
  }

  function ClassRuns(bus: Bus, n: nat, metrics: seq<MetricConfig>, k: nat): (r: seq<Run>)
    requires k <= CLASSES
    ensures |r| == k
  {
    if k == 0 then []
    else
      var before := ClassRuns(bus, n, metrics, k - 1);
      before + [ClassRun(bus, n + |Chain(before, k - 1).log|, metrics, Serve(k - 1))]
  }

  function BatchTo(bus: Bus, n: nat, metrics: seq<MetricConfig>, k: nat): Run
    requires k <= CLASSES
  {
    Chain(ClassRuns(bus, n, metrics, k), k)
  }

  /** Every call and every slot write of one batch whose first call is the n-th. */
  function BatchRun(bus: Bus, n: nat, metrics: seq<MetricConfig>): Run {
    BatchTo(bus, n, metrics, CLASSES)
  }

  /** The number of the first call made for the k-th class. */
  function StageOf(bus: Bus, n: nat, metrics: seq<MetricConfig>, k: nat): nat
    requires k <= CLASSES
  {
    n + |BatchTo(bus, n, metrics, k).log|
  }

  lemma {:induction false} StageAt(bus: Bus, n: nat, metrics: seq<MetricConfig>, j: nat, k: nat)
    requires j < k <= CLASSES
    ensures ClassRuns(bus, n, metrics, k)[j] == ClassRun(bus, StageOf(bus, n, metrics, j), metrics, Serve(j))
  {
    if j < k - 1 {
      StageAt(bus, n, metrics, j, k - 1);
      StageStays(bus, n, metrics, j, k - 1, k);
    } else {
      StageIsNew(bus, n, metrics, j, k);
    }
  }

  lemma {:induction false} StageStays(bus: Bus, n: nat, metrics: seq<MetricConfig>, i: nat, j: nat, k: nat)
    requires i < j && k == j + 1 <= CLASSES
    ensures ClassRuns(bus, n, metrics, k)[i] == ClassRuns(bus, n, metrics, j)[i]
  {
  }

  lemma {:induction false} StageIsNew(bus: Bus, n: nat, metrics: seq<MetricConfig>, j: nat, k: nat)
    requires k == j + 1 <= CLASSES
    ensures ClassRuns(bus, n, metrics, k)[j] == ClassRun(bus, StageOf(bus, n, metrics, j), metrics, Serve(j))
  {
  }

  lemma {:induction false} StageNext(bus: Bus, n: nat, metrics: seq<MetricConfig>, j: nat, k: nat)
    requires k == j + 1 <= CLASSES
    ensures BatchTo(bus, n, metrics, k)
         == BatchTo(bus, n, metrics, j).Then(ClassRun(bus, StageOf(bus, n, metrics, j), metrics, Serve(j)))
  {
    var before := ClassRuns(bus, n, metrics, j);
    ChainExtended(before, ClassRun(bus, n + |Chain(before, j).log|, metrics, Serve(j)), j);
  }

  // ----- filling the slots -----

  lemma {:induction false} ApplyConcat(slots: seq<Option<Outcome>>, a: seq<(nat, Outcome)>, b: seq<(nat, Outcome)>)
    ensures Apply(slots, a + b) == Apply(Apply(slots, a), b)
  {
    if b == [] {
      assert a + b == a;
    } else {
      var front := b[..|b| - 1];
      ApplyConcat(slots, a, front);
      assert (a + b)[..|a + b| - 1] == a + front;
    }
  }

  lemma {:induction false} ApplyOne(slots: seq<Option<Outcome>>, writes: seq<(nat, Outcome)>, w: (nat, Outcome))
    requires w.0 < |slots|
    ensures Apply(slots, writes + [w]) == Apply(slots, writes)[w.0 := Some(w.1)]
  {
    assert (writes + [w])[..|writes|] == writes;
  }

  function EmptySlots(n: nat): seq<Option<Outcome>> {
    seq(n, _ => None)
  }

  /** The result reported for each metric, in input order. */
  function Results(bus: Bus, n: nat, metrics: seq<MetricConfig>): (r: seq<Outcome>)
    ensures |r| == |metrics|
  {
    Filled(Apply(EmptySlots(|metrics|), BatchRun(bus, n, metrics).writes))
  }

  function Filled(slots: seq<Option<Outcome>>): (r: seq<Outcome>)
    ensures |r| == |slots|
    ensures forall i :: 0 <= i < |slots| ==> r[i] == if slots[i].Some? then slots[i].value else Err(NotProcessed)
  {
    if slots == [] then []
    else Filled(slots[..|slots| - 1]) + [if slots[|slots| - 1].Some? then slots[|slots| - 1].value else Err(NotProcessed)]
  }

  // ----- the loops -----

  /** The requests logged and the slots filled between two states are those of
      `run`. */
  ghost predicate Effect(log: seq<Request>, slots: seq<Option<Outcome>>, run: Run,
                         log': seq<Request>, slots': seq<Option<Outcome>>)
  {
    && log' == log + run.log
    && slots' == Apply(slots, run.writes)
  }

  lemma {:induction false} EffectThen(log: seq<Request>, slots: seq<Option<Outcome>>, run: Run,
      log': seq<Request>, slots': seq<Option<Outcome>>, next: Run,
      log'': seq<Request>, slots'': seq<Option<Outcome>>)
    requires Effect(log, slots, run, log', slots') && Effect(log', slots', next, log'', slots'')
    ensures Effect(log, slots, run.Then(next), log'', slots'')
  {
    ApplyConcat(slots, run.writes, next.writes);
  }

  lemma {:induction false} RangesStep(bus: Bus, kind: RegisterType, ranges: seq<MergedRange>, k: nat,
      log: seq<Request>, slots: seq<Option<Outcome>>, log': seq<Request>, slots': seq<Option<Outcome>>,
      log'': seq<Request>, slots'': seq<Option<Outcome>>, before: Run, next: Run)
    requires k < |ranges| && before == RangesTo(bus, |log|, kind, ranges, k) && next == RangeRun(bus, |log'|, kind, ranges[k])
    requires Effect(log, slots, before, log', slots') && Effect(log', slots', next, log'', slots'')
    ensures Effect(log, slots, RangesTo(bus, |log|, kind, ranges, k + 1), log'', slots'')
  {
    assert |log'| == CallOf(bus, |log|, kind, ranges, k);
    RangesNext(bus, |log|, kind, ranges, k, k + 1);
    EffectThen(log, slots, before, log', slots', next, log'', slots'');
  }

  /** Reads every merged range of one kind; a failed range is read metric by
      metric. */
  method ReadRanges(dev: Device, metrics: seq<MetricConfig>, kind: RegisterType, ranges: seq<MergedRange>,
                    slots: seq<Option<Outcome>>, readCount: nat)
    returns (slots': seq<Option<Outcome>>, readCount': nat)
    requires RangesOf(ranges, metrics, kind) && |slots| == |metrics|
    modifies dev`log
    ensures Effect(old(dev.log), slots, RangesTo(dev.bus, |old(dev.log)|, kind, ranges, |ranges|), dev.log, slots')
    ensures readCount' - readCount == |dev.log| - |old(dev.log)|
  {
    slots', readCount' := slots, readCount;
    for k := 0 to |ranges|
      invariant |slots'| == |slots|
      invariant readCount' - readCount == |dev.log| - |old(dev.log)|
      invariant Effect(old(dev.log), slots, RangesTo(dev.bus, |old(dev.log)|, kind, ranges, k), dev.log, slots')
    {
      ghost var log, filled := dev.log, slots';
      slots', readCount' := ReadRange(dev, metrics, kind, ranges[k], slots', readCount');
      RangesStep(dev.bus, kind, ranges, k, old(dev.log), slots, log, filled, dev.log, slots',
                 RangesTo(dev.bus, |old(dev.log)|, kind, ranges, k), RangeRun(dev.bus, |log|, kind, ranges[k]));
    }
  }

  method ReadRange(dev: Device, metrics: seq<MetricConfig>, kind: RegisterType, r: MergedRange,
                   slots: seq<Option<Outcome>>, readCount: nat)
    returns (slots': seq<Option<Outcome>>, readCount': nat)
    requires RangeOf(r, metrics, kind) && |slots| == |metrics|
    modifies dev`log
    ensures Effect(old(dev.log), slots, RangeRun(dev.bus, |old(dev.log)|, kind, r), dev.log, slots')
    ensures readCount' - readCount == |dev.log| - |old(dev.log)|
  {
    ItemsAreAddressed(r.members, metrics, ByRegister(kind));
    ghost var n, call := |dev.log|, Run([RangeRequest(kind, r)], []);
    readCount' := readCount + 1;
    var response := dev.Read(Request(kind, r.start, r.Count()));
    ghost var log := dev.log;
    match response {
      case Ok(regs) =>
        slots' := DecodeMembers(regs, r.start, r.members, slots);
        DecodedIsFree(regs, r.start, r.members, |r.members|);
        EffectThen(old(dev.log), slots, call, log, slots, DecodedTo(regs, r.start, r.members, |r.members|), dev.log, slots');
      case Err(_) =>
        slots', readCount' := ReadEach(dev, r.members, slots, readCount');
        EffectThen(old(dev.log), slots, call, log, slots, SinglesTo(dev.bus, n + 1, r.members, |r.members|), dev.log, slots');
    }
  }

  method DecodeMembers(
    regs: seq<word>, start: word, members: seq<Item>, slots: seq<Option<Outcome>>)
    returns (slots': seq<Option<Outcome>>)
    requires forall j :: 0 <= j < |members| ==> members[j].idx < |slots|
    ensures slots' == Apply(slots, DecodedTo(regs, start, members, |members|).writes)
  {
    slots' := slots;
    for j := 0 to |members|
      invariant slots' == Apply(slots, DecodedTo(regs, start, members, j).writes)
    {
      var r := DecodeMetric(members[j].metric, regs, start);
      ApplyOne(slots, DecodedTo(regs, start, members, j).writes, (members[j].idx, r));
      slots' := slots'[members[j].idx := Some(r)];
    }
  }

  lemma {:induction false} DecodedIsFree(regs: seq<word>, start: word, members: seq<Item>, k: nat)
    requires k <= |members|
    ensures DecodedTo(regs, start, members, k).log == []
  {
    if k > 0 {
      DecodedIsFree(regs, start, members, k - 1);
    }
  }

  lemma {:induction false} SinglesStep(bus: Bus, n: nat, items: seq<Item>, j: nat, r: Outcome,
      log: seq<Request>, slots: seq<Option<Outcome>>, log': seq<Request>, slots': seq<Option<Outcome>>, before: Run)
    requires n == |log| && j < |items| && items[j].idx < |slots|
    requires before == SinglesTo(bus, n, items, j) && r == SingleOutcome(bus, |log'|, items[j].metric)
    requires Effect(log, slots, before, log', slots')
    ensures Effect(log, slots, SinglesTo(bus, n, items, j + 1), log' + SingleCalls(items[j].metric), slots'[items[j].idx := Some(r)])
  {
    ApplyOne(slots, before.writes, (items[j].idx, r));
  }

  /** Individual reads, used for coils and discrete inputs and as the fallback. */
  method ReadEach(dev: Device, items: seq<Item>, slots: seq<Option<Outcome>>, readCount: nat)
    returns (slots': seq<Option<Outcome>>, readCount': nat)
    requires Addressed(items) && forall j :: 0 <= j < |items| ==> items[j].idx < |slots|
    modifies dev`log
    ensures Effect(old(dev.log), slots, SinglesTo(dev.bus, |old(dev.log)|, items, |items|), dev.log, slots')
    ensures readCount' - readCount == |dev.log| - |old(dev.log)|
  {
    slots', readCount' := slots, readCount;
    for j := 0 to |items|
      invariant |slots'| == |slots|
      invariant Effect(old(dev.log), slots, SinglesTo(dev.bus, |old(dev.log)|, items, j), dev.log, slots')
      invariant readCount' - readCount == |dev.log| - |old(dev.log)|
    {
      ghost var log, filled := dev.log, slots';
      readCount' := readCount' + 1;
      var r := ReadSingle(dev, items[j].metric);
      slots' := slots'[items[j].idx := Some(r)];
      SinglesStep(dev.bus, |old(dev.log)|, items, j, r, old(dev.log), slots, log, filled, SinglesTo(dev.bus, |old(dev.log)|, items, j));
    }
  }

  lemma {:induction false} StageStep(bus: Bus, metrics: seq<MetricConfig>, k: nat, c: Class,
      log: seq<Request>, slots: seq<Option<Outcome>>, log': seq<Request>, slots': seq<Option<Outcome>>,
      log'': seq<Request>, slots'': seq<Option<Outcome>>, before: Run, next: Run)
    requires k < CLASSES && c == Serve(k)
    requires before == BatchTo(bus, |log|, metrics, k) && next == ClassRun(bus, |log'|, metrics, c)
    requires Effect(log, slots, before, log', slots') && Effect(log', slots', next, log'', slots'')
    ensures Effect(log, slots, BatchTo(bus, |log|, metrics, k + 1), log'', slots'')
  {
    assert |log'| == StageOf(bus, |log|, metrics, k);
    StageNext(bus, |log|, metrics, k, k + 1);
    EffectThen(log, slots, before, log', slots', next, log'', slots'');
  }

  lemma {:induction false} NoStage(bus: Bus, metrics: seq<MetricConfig>, k: nat, log: seq<Request>, slots: seq<Option<Outcome>>)
    requires k == 0
    ensures Effect(log, slots, BatchTo(bus, |log|, metrics, k), log, slots)
  {
    assert log + [] == log;
  }

  lemma {:induction false} UnaddressedEffect(bus: Bus, metrics: seq<MetricConfig>, log: seq<Request>, slots: seq<Option<Outcome>>)
    requires slots == Apply(EmptySlots(|metrics|), UnaddressedTo(metrics, |metrics|).writes)
    ensures Effect(log, EmptySlots(|metrics|), ClassRun(bus, |log|, metrics, Unaddressed), log, slots)
  {
    UnaddressedIsFree(metrics, |metrics|);
    assert log + [] == log;
  }

  /** Sorts, merges and reads the metrics of one register kind. */
  method ReadKind(dev: Device, metrics: seq<MetricConfig>, kind: RegisterType, picked: seq<Item>,
                  slots: seq<Option<Outcome>>, readCount: nat)
    returns (slots': seq<Option<Outcome>>, readCount': nat)
    requires picked == Pick(metrics, |metrics|, ByRegister(kind)) && |slots| == |metrics|
    modifies dev`log
    ensures Effect(old(dev.log), slots, ClassRun(dev.bus, |old(dev.log)|, metrics, ByRegister(kind)), dev.log, slots')
    ensures readCount' - readCount == |dev.log| - |old(dev.log)|
  {
    RangesForAreRanges(metrics, kind);
    var ranges := Coalesce.Coalesce(SortByAddr(picked));
    slots', readCount' := ReadRanges(dev, metrics, kind, ranges, slots, readCount);
  }

  /** Reads coils and discrete inputs one by one. */
  method ReadBits(dev: Device, metrics: seq<MetricConfig>, individual: seq<Item>, slots: seq<Option<Outcome>>, readCount: nat)
    returns (slots': seq<Option<Outcome>>, readCount': nat)
    requires individual == Pick(metrics, |metrics|, ByBit) && |slots| == |metrics|
    modifies dev`log
    ensures Effect(old(dev.log), slots, ClassRun(dev.bus, |old(dev.log)|, metrics, ByBit), dev.log, slots')
    ensures readCount' - readCount == |dev.log| - |old(dev.log)|
  {
    BitItemsFit(metrics, individual);
    slots', readCount' := ReadEach(dev, individual, slots, readCount);
  }

  /** Serves the k-th class; what has been done so far is extended by its run. */
  method ServeClass(dev: Device, metrics: seq<MetricConfig>, ghost k: nat, c: Class, picked: seq<Item>,
                    slots: seq<Option<Outcome>>, readCount: nat, ghost log: seq<Request>)
    returns (slots': seq<Option<Outcome>>, readCount': nat)
    requires k < CLASSES && c == Serve(k) && c != Unaddressed
    requires picked == Pick(metrics, |metrics|, c) && |slots| == |metrics|
    requires Effect(log, EmptySlots(|metrics|), BatchTo(dev.bus, |log|, metrics, k), dev.log, slots)
    modifies dev`log
    ensures Effect(log, EmptySlots(|metrics|), BatchTo(dev.bus, |log|, metrics, k + 1), dev.log, slots')
    ensures readCount' - readCount == |dev.log| - |old(dev.log)|
  {
    if c == ByBit {
      slots', readCount' := ReadBits(dev, metrics, picked, slots, readCount);
    } else {
      slots', readCount' := ReadKind(dev, metrics, c.kind, picked, slots, readCount);
    }
    StageStep(dev.bus, metrics, k, c, log, EmptySlots(|metrics|), old(dev.log), slots, dev.log, slots',
              BatchTo(dev.bus, |log|, metrics, k), ClassRun(dev.bus, |old(dev.log)|, metrics, c));
  }

  /** Splits the metrics and fills the slots of those without an address. */
  method Prepare(dev: Device, metrics: seq<MetricConfig>, ghost k: nat)
    returns (holding: seq<Item>, input: seq<Item>, individual: seq<Item>, slots: seq<Option<Outcome>>)
    requires k == 0
    ensures holding == Pick(metrics, |metrics|, ByRegister(Holding))
    ensures input == Pick(metrics, |metrics|, ByRegister(Input))
    ensures individual == Pick(metrics, |metrics|, ByBit)
    ensures |slots| == |metrics|
    ensures Effect(dev.log, EmptySlots(|metrics|), BatchTo(dev.bus, |dev.log|, metrics, k + 1), dev.log, slots)
  {
    holding, input, individual, slots := Classify(metrics);
    NoStage(dev.bus, metrics, k, dev.log, EmptySlots(|metrics|));
    UnaddressedEffect(dev.bus, metrics, dev.log, slots);
    StageStep(dev.bus, metrics, k, Unaddressed, dev.log, EmptySlots(|metrics|), dev.log, EmptySlots(|metrics|), dev.log, slots,
              BatchTo(dev.bus, |dev.log|, metrics, k), ClassRun(dev.bus, |dev.log|, metrics, Unaddressed));
  }

  /** Reads all classes one after the other into the slots. */
  method ServeAll(dev: Device, metrics: seq<MetricConfig>) returns (slots: seq<Option<Outcome>>, readCount: nat)
    modifies dev`log
    ensures |slots| == |metrics| && readCount == |dev.log| - |old(dev.log)|
    ensures Effect(old(dev.log), EmptySlots(|metrics|), BatchRun(dev.bus, |old(dev.log)|, metrics), dev.log, slots)
  {
    ghost var k, log := 0, dev.log;
    var holding, input, individual, prepared := Prepare(dev, metrics, k);
    slots, readCount := ServeClass(dev, metrics, k + 1, ByRegister(Holding), holding, prepared, 0, log);
    slots, readCount := ServeClass(dev, metrics, k + 2, ByRegister(Input), input, slots, readCount, log);
    slots, readCount := ServeClass(dev, metrics, k + 3, ByBit, individual, slots, readCount, log);
  }

  /** The entry point. Every result is reported at its metric's own position. */
  method BatchReadCoalesced(dev: Device, metrics: seq<MetricConfig>)
    returns (results: seq<(MetricConfig, Outcome)>, readCount: nat)
    modifies dev`log
    ensures dev.log == old(dev.log) + BatchRun(dev.bus, |old(dev.log)|, metrics).log
    ensures readCount == |dev.log| - |old(dev.log)|
    ensures |results| == |metrics|
    ensures forall i :: 0 <= i < |metrics| ==> results[i] == (metrics[i], Results(dev.bus, |old(dev.log)|, metrics)[i])
  {
    var slots;
    slots, readCount := ServeAll(dev, metrics);
    results := Collect(metrics, slots);
  }

  method Collect(metrics: seq<MetricConfig>, slots: seq<Option<Outcome>>) returns (results: seq<(MetricConfig, Outcome)>)
    requires |slots| == |metrics|
    ensures |results| == |metrics|
    ensures forall i :: 0 <= i < |metrics| ==> results[i] == (metrics[i], Filled(slots)[i])
  {
    results := [];
    for idx := 0 to |metrics|
      invariant |results| == idx
      invariant forall j :: 0 <= j < idx ==> results[j] == (metrics[j], Filled(slots)[j])
    {
      var r := if slots[idx].Some? then slots[idx].value else Err(NotProcessed);
      results := results + [(metrics[idx], r)];
    }
  }

  lemma {:induction false} UnaddressedIsFree(metrics: seq<MetricConfig>, n: nat)
    requires n <= |metrics|
    ensures UnaddressedTo(metrics, n).log == []
  {
    if n == 0 {
    } else {
      UnaddressedIsFree(metrics, n - 1);
    }
  }

  lemma {:induction false} BitItemsFit(metrics: seq<MetricConfig>, items: seq<Item>)
    requires items == Pick(metrics, |metrics|, ByBit)
    ensures Addressed(items) && forall j :: 0 <= j < |items| ==> items[j].idx < |metrics|
  {
    PickIsOf(metrics, |metrics|, ByBit);
    ItemsAreAddressed(items, metrics, ByBit);
  }

  /** Separates the metrics into register reads, bit reads and metrics that
      cannot be read at all. */
  method Classify(metrics: seq<MetricConfig>)
    returns (holdingItems: seq<Item>, inputItems: seq<Item>, bitItems: seq<Item>, filled: seq<Option<Outcome>>)
    ensures holdingItems == Pick(metrics, |metrics|, ByRegister(Holding))
    ensures inputItems == Pick(metrics, |metrics|, ByRegister(Input))
    ensures bitItems == Pick(metrics, |metrics|, ByBit)
    ensures filled == Apply(EmptySlots(|metrics|), UnaddressedTo(metrics, |metrics|).writes)
  {
    filled := EmptySlots(|metrics|);
    holdingItems, inputItems, bitItems := [], [], [];
    for idx := 0 to |metrics|
      invariant filled == Apply(EmptySlots(|metrics|), UnaddressedTo(metrics, idx).writes)
      invariant holdingItems == Pick(metrics, idx, ByRegister(Holding))
      invariant inputItems == Pick(metrics, idx, ByRegister(Input))
      invariant bitItems == Pick(metrics, idx, ByBit)
    {
      var m := metrics[idx];
      if m.address.None? {
        ApplyOne(EmptySlots(|metrics|), UnaddressedTo(metrics, idx).writes, (idx, Err(NoAddress)));
        filled := filled[idx := Some(Err(NoAddress))];
      } else {
        var item := Item(idx, m, m.address.value, RegistersNeeded(m.dataType));
        match KindOf(m) {
          case Holding => holdingItems := holdingItems + [item];
          case Input => inputItems := inputItems + [item];
          case Coil | Discrete => bitItems := bitItems + [item];
        }
      }
    }
  }
}
