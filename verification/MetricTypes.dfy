/** The values every part of the exporter shares: machine integers, metric
    definitions as the configuration holds them, and published samples. */
module MetricTypes {
  import opened Wrappers

  type byte = x: int | 0 <= x < 0x100
  type word = x: int | 0 <= x < 0x1_0000

  datatype ByteOrder = BigEndian | LittleEndian | MidBigEndian | MidLittleEndian

  datatype DataType = U8 | U16 | I16 | U32 | I32 | F32 | U64 | I64 | F64 | Bool

  datatype RegisterType = Holding | Input | Coil | Discrete

  datatype MetricKind = Gauge | Counter

  /** One configured metric; `address` and `registerType` may be absent. */
  datatype MetricConfig = MetricConfig(
    name: string,
    description: string,
    kind: MetricKind,
    registerType: Option<RegisterType>,
    address: Option<word>,
    dataType: DataType,
    byteOrder: ByteOrder,
    scale: real,
    offset: real,
    unit: string)

  /** One published sample. The wall-clock timestamp is not modelled. */
  datatype MetricValue = MetricValue(
    name: string,
    value: real,
    kind: MetricKind,
    labels: map<string, string>,
    description: string,
    unit: string)
}
