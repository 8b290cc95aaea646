/** Reading an SPI metric (src/reader/spi/mod.rs:142-189), and what the validation
    of the configuration (src/config.rs:1216-1246) does for it. Offsets and lengths
    of the configuration are 16 bits wide. */
module Spi {
  import opened Wrappers
  import opened MetricTypes
  import opened Decoder

  datatype SpiMetric = SpiMetric(
    command: seq<byte>, responseLength: Option<word>, responseOffset: word,
    dataType: DataType, byteOrder: ByteOrder, scale: real, offset: real)
  {
    /** As the configuration has it: the length of a long command is cut to 16
        bits. */
    function ResponseLength(): word {
      if responseLength.Some? then responseLength.value else |command| % 0x1_0000
    }

    /** The validation of the configuration, for a build whose additions wrap
        around. */
    predicate Validated() {
      && command != []
      && byteOrder != MidBigEndian && byteOrder != MidLittleEndian
      && (responseOffset + ByteCount(dataType)) % 0x1_0000 <= ResponseLength()
    }

    /** Bytes sent and received in one transfer. */
    function TransferLength(): nat {
      if |command| < ResponseLength() then ResponseLength() else |command|
    }

    predicate PayloadInBounds() {
      responseOffset + ByteCount(dataType) <= TransferLength()
    }
  }

  /** Where nothing wraps around, the check is what it looks like: there is a command, the
      byte order is plain, and the payload ends within the configured response length
      or, without one, within the command. */
  lemma {:induction false} ValidatedExactly(m: SpiMetric)
    requires m.responseOffset + ByteCount(m.dataType) < 0x1_0000 && |m.command| < 0x1_0000
    ensures m.Validated()
       <==> && m.command != [] && (m.byteOrder == BigEndian || m.byteOrder == LittleEndian)
            && m.responseOffset + ByteCount(m.dataType)
               <= if m.responseLength.Some? then m.responseLength.value else |m.command|
  {
    var end := m.responseOffset + ByteCount(m.dataType);
    assert end % 0x1_0000 == end && |m.command| % 0x1_0000 == |m.command|;
  }

  /** For a validated metric the payload lies within the response exactly if the
      check did not wrap around or the command itself is long enough. */
  lemma {:induction false} ValidatedPayload(m: SpiMetric)
    requires m.Validated()
    ensures m.PayloadInBounds()
       <==> m.responseOffset + ByteCount(m.dataType) < 0x1_0000 || m.responseOffset + ByteCount(m.dataType) <= |m.command|
  {
    var end := m.responseOffset + ByteCount(m.dataType);
    if end < 0x1_0000 {
      assert end % 0x1_0000 == end;
    }
  }

  /** The failing case is real. */
  lemma {:induction false} WrappedCheckPasses(m: SpiMetric)
    requires m.command == [0] && m.responseLength == Some(2) && m.responseOffset == 0xFFFF
    requires m.dataType == U16 && m.byteOrder == BigEndian
    ensures m.Validated() && !m.PayloadInBounds()
  {
    assert (0xFFFF + 2) % 0x1_0000 == 1;
  }

  /** The command, padded with zeros to the response length. */
  function TxBuffer(command: seq<byte>, n: nat): (r: seq<byte>)
    ensures |r| == if |command| < n then n else |command|
    ensures r[..|command|] == command && forall i :: |command| <= i < |r| ==> r[i] == 0
    decreases n - |command|
  {
    if |command| < n then
      var r := TxBuffer(command + [0], n);
      assert r[..|command|] == r[..|command| + 1][..|command|];
      r
    else command
  }

  /** One full-duplex transfer: what was sent, and the answer of the same length, or
      none if the transfer failed. */
  datatype Exchange = Exchange(tx: seq<byte>, rx: Option<seq<byte>>)

  class Device {
    ghost var log: seq<Exchange>

    method Transfer(tx: seq<byte>) returns (rx: Option<seq<byte>>)
      modifies this
      ensures rx.Some? ==> |rx.value| == |tx|
      ensures log == old(log) + [Exchange(tx, rx)]
    {
      rx :| rx.Some? ==> |rx.value| == |tx|;
      log := log + [Exchange(tx, rx)];
    }
  }

  /** What is sent for a metric: its command, then zeros up to the response length if
      one is configured and longer. */
  predicate IsPadded(tx: seq<byte>, m: SpiMetric) {
    && |m.command| <= |tx| && tx[..|m.command|] == m.command
    && (forall i :: |m.command| <= i < |tx| ==> tx[i] == 0)
    && |tx| == if m.responseLength.Some? && m.responseLength.value > |m.command| then m.responseLength.value else |m.command|
  }

  /** Does the response carry this reading from the configured offset on? */
  ghost predicate Answers(rx: seq<byte>, m: SpiMetric, v: Reading) {
    && v.scale == m.scale && v.offset == m.offset
    && m.responseOffset <= |rx| && BytesCarry(rx[m.responseOffset..], m.dataType, m.byteOrder, v.raw)
  }

  lemma {:induction false} PayloadCarries(rx: seq<byte>, m: SpiMetric, v: Reading)
    requires m.responseOffset + ByteCount(m.dataType) <= |rx|
    requires DecodeBytes(rx[m.responseOffset..m.responseOffset + ByteCount(m.dataType)], m.dataType, m.byteOrder, m.scale, m.offset)
          == Ok(v)
    ensures Answers(rx, m, v)
  {
    var rest, size := rx[m.responseOffset..], ByteCount(m.dataType);
    var payload := rx[m.responseOffset..m.responseOffset + size];
    assert rest[..size] == payload == payload[..size];
    DecodeBytesIsCarried(payload, m.dataType, m.byteOrder, m.scale, m.offset, v.raw);
  }

  /** Exactly one transfer, of the command padded to the response length. If it
      succeeds, the reading is what its response holds at the configured offset, and
      decoding it cannot fail. Slicing the response needs the payload to lie within
      it. */
  method ReadMetric(dev: Device, m: SpiMetric) returns (r: Option<Reading>)
    requires m.PayloadInBounds()
    modifies dev
    ensures |dev.log| == |old(dev.log)| + 1 && dev.log[..|old(dev.log)|] == old(dev.log)
    ensures var sent := dev.log[|old(dev.log)|];
            && IsPadded(sent.tx, m)
            && (r.Some? <==> sent.rx.Some?)
            && (r.Some? ==> |sent.rx.value| == |sent.tx| && Answers(sent.rx.value, m, r.value))
  {
    var tx := TxBuffer(m.command, m.ResponseLength());
    var bytes := dev.Transfer(tx);
    if bytes.None? {
      return None;
    }
    var payload := bytes.value[m.responseOffset..m.responseOffset + ByteCount(m.dataType)];
    var decoded := DecodeBytes(payload, m.dataType, m.byteOrder, m.scale, m.offset);
    PayloadCarries(bytes.value, m, decoded.value);
    r := Some(decoded.value);
  }
}
