/** What a batch reports, in terms of what the device holds
    (src/reader/modbus/batch.rs:114-156, 170-287). */
module BatchValues {
  import opened Wrappers
  import opened MetricTypes
  import opened Decoder
  import opened Bus
  import opened BatchRead
  import opened BatchTheorems

  /** Every value a batch reports is what the device holds for that metric, whatever
      the device answers and whichever ranges fail. */
  lemma {:induction false} ReportedIsHeld(bus: Bus, n: nat, metrics: seq<MetricConfig>, i: nat)
    requires i < |metrics|
    ensures var r := Results(bus, n, metrics)[i]; r.Ok? ==> Held(bus, metrics[i], r.value)
  {
    BatchRefinesSingleReads(bus, n, metrics, i);
    var r := Results(bus, n, metrics)[i];
    if r.Ok? {
      TrueReadingIsHeld(bus, metrics[i], r.value);
    }
  }

  /** And it is the only one. */
  lemma {:induction false} HeldIsOne(bus: Bus, m: MetricConfig, v: Reading, w: Reading)
    requires Held(bus, m, v) && Held(bus, m, w)
    ensures v == w
  {
    TrueReadingIsHeld(bus, m, v);
    TrueReadingIsHeld(bus, m, w);
  }

  /** A coil or discrete input is reported as 1 or 0; a device that always answers the
      request for it gets it reported. */
  lemma {:induction false} BitIsReported(bus: Bus, n: nat, metrics: seq<MetricConfig>, i: nat, kind: RegisterType, addr: word)
    requires i < |metrics| && metrics[i].address == Some(addr)
    requires metrics[i].registerType == Some(kind) && (kind.Coil? || kind.Discrete?)
    ensures var r, m := Results(bus, n, metrics)[i], metrics[i];
            && (r.Ok? ==> r.value == Reading(Whole(if bus.contents(kind, addr) != 0 then 1 else 0), m.scale, m.offset))
            && ((forall k :: bus.answers(k, Request(kind, addr, 1))) ==> r.Ok?)
  {
    ReportedIsHeld(bus, n, metrics, i);
    if forall k :: bus.answers(k, Request(kind, addr, 1)) {
      assert AlwaysReadable(bus, metrics[i]);
      SafeMetricIsDelivered(bus, n, metrics, i);
    }
  }

  /** The registers from this address on hold these words. */
  predicate Stored(bus: Bus, kind: RegisterType, addr: int, r: seq<word>) {
    forall j :: 0 <= j < |r| ==> bus.contents(kind, addr + j) == r[j]
  }

  /** Is it a register metric of this kind? Holding is the default. */
  predicate ReadsFrom(m: MetricConfig, kind: RegisterType) {
    && (kind == Holding || kind == Input)
    && (m.registerType == Some(kind) || (m.registerType.None? && kind == Holding))
  }

  lemma {:induction false} StoredIsHeld(
    bus: Bus, n: nat, metrics: seq<MetricConfig>, i: nat, kind: RegisterType, addr: word, r: seq<word>, raw: Raw)
    requires i < |metrics| && metrics[i].address == Some(addr) && ReadsFrom(metrics[i], kind)
    requires Stored(bus, kind, addr, r) && |r| == RegistersNeeded(metrics[i].dataType)
    requires Carries(r, metrics[i].dataType, metrics[i].byteOrder, raw)
    ensures var o, m := Results(bus, n, metrics)[i], metrics[i];
            o.Ok? ==> o.value == Reading(raw, m.scale, m.offset)
  {
    var m := metrics[i];
    ReportedIsHeld(bus, n, metrics, i);
    assert Registers(bus, kind, addr, |r|) == r;
    var o := Results(bus, n, metrics)[i];
    if o.Ok? {
      HeldIsOne(bus, m, o.value, Reading(raw, m.scale, m.offset));
    }
  }

  /** An integer stored in a device in the metric's byte order is reported as that
      integer. */
  lemma {:induction false} IntegerIsReported(
    bus: Bus, n: nat, metrics: seq<MetricConfig>, i: nat, kind: RegisterType, addr: word, k: int)
    requires i < |metrics| && metrics[i].address == Some(addr) && ReadsFrom(metrics[i], kind)
    requires IsInteger(metrics[i].dataType) && InRange(k, metrics[i].dataType)
    requires Stored(bus, kind, addr, Encode(k, metrics[i].dataType, metrics[i].byteOrder))
    ensures var r, m := Results(bus, n, metrics)[i], metrics[i];
            && (r.Ok? ==> r.value == Reading(Whole(k), m.scale, m.offset))
            && (AlwaysReadable(bus, m) && Safe(metrics, i) ==> r.Ok?)
  {
    var m := metrics[i];
    var r := Encode(k, m.dataType, m.byteOrder);
    DecodeEncode(k, m.dataType, m.byteOrder, m.scale, m.offset);
    DecodeIsCarried(r, m.dataType, m.byteOrder, m.scale, m.offset, Whole(k));
    StoredIsHeld(bus, n, metrics, i, kind, addr, r, Whole(k));
    if AlwaysReadable(bus, m) && Safe(metrics, i) {
      SafeMetricIsDelivered(bus, n, metrics, i);
    }
  }

  /** A float is reported with the bits it was stored with. */
  lemma {:induction false} FloatIsReported(
    bus: Bus, n: nat, metrics: seq<MetricConfig>, i: nat, kind: RegisterType, addr: word, bits: nat)
    requires i < |metrics| && metrics[i].address == Some(addr) && ReadsFrom(metrics[i], kind)
    requires var dt := metrics[i].dataType;
             (dt == F32 && bits < 0x1_0000_0000) || (dt == F64 && bits < 0x1_0000_0000_0000_0000)
    requires Stored(bus, kind, addr, Arrange(BeBytes(bits, if metrics[i].dataType == F32 then 4 else 8), metrics[i].byteOrder))
    ensures var r, m := Results(bus, n, metrics)[i], metrics[i];
            && (r.Ok? ==> r.value == Reading(if m.dataType == F32 then Single(bits) else Double(bits), m.scale, m.offset))
            && (AlwaysReadable(bus, m) && Safe(metrics, i) ==> r.Ok?)
  {
    var m := metrics[i];
    var r := Arrange(BeBytes(bits, ByteCount(m.dataType)), m.byteOrder);
    var raw := if m.dataType == F32 then Single(bits) else Double(bits);
    FloatDecodeEncode(bits, m.dataType, m.byteOrder, m.scale, m.offset);
    DecodeIsCarried(r, m.dataType, m.byteOrder, m.scale, m.offset, raw);
    StoredIsHeld(bus, n, metrics, i, kind, addr, r, raw);
    if AlwaysReadable(bus, m) && Safe(metrics, i) {
      SafeMetricIsDelivered(bus, n, metrics, i);
    }
  }
}
