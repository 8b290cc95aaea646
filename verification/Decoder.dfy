/** Register and byte decoding (src/reader/decoder.rs). Integers are exact; a
    float is kept as its bit pattern, and the linear transform is kept as its
    two coefficients, so equal readings are equal under any float semantics. */
module Decoder {
  import opened Wrappers
  import opened MetricTypes

  /** The raw value before it is turned into a double. */
  datatype Raw = Whole(n: int) | Single(bits: nat) | Double(bits: nat)

  /** raw, and raw * scale + offset still to be evaluated. */
  datatype Reading = Reading(raw: Raw, scale: real, offset: real)

  datatype DecodeError = InsufficientRegisters(expected: nat, got: nat)

  function RegistersNeeded(dt: DataType): (n: nat)
    ensures n == 1 || n == 2 || n == 4
  {
    match dt
    case U8 | U16 | I16 | Bool => 1
    case U32 | I32 | F32 => 2
    case U64 | I64 | F64 => 4
  }

  function ByteCount(dt: DataType): nat {
    match dt
    case Bool | U8 => 1
    case U16 | I16 => 2
    case U32 | I32 | F32 => 4
    case U64 | I64 | F64 => 8
  }

  // ----- big-endian numbers -----

  function Pow256(n: nat): (p: nat)
    ensures p >= 1
  {
    if n == 0 then 1 else 256 * Pow256(n - 1)
  }

  /** The number a byte string denotes, most significant byte first. */
  function BeValue(bs: seq<byte>): nat {
    if bs == [] then 0 else BeValue(bs[..|bs| - 1]) * 256 + bs[|bs| - 1]
  }

  /** The n low-order bytes of v, most significant byte first. */
  function BeBytes(v: nat, n: nat): (bs: seq<byte>)
    ensures |bs| == n
  {
    if n == 0 then [] else BeBytes(v / 256, n - 1) + [v % 256]
  }

  lemma {:induction false} BeValueBound(bs: seq<byte>)
    ensures BeValue(bs) < Pow256(|bs|)
  {
    if bs == [] {
    } else {
      BeValueBound(bs[..|bs| - 1]);
    }
  }

  lemma {:induction false} BeBytesOfValue(bs: seq<byte>)
    ensures BeBytes(BeValue(bs), |bs|) == bs
  {
    if bs == [] {
    } else {
      BeBytesOfValue(bs[..|bs| - 1]);
    }
  }

  lemma {:induction false} BeValueOfBytes(v: nat, n: nat)
    requires v < Pow256(n)
    ensures BeValue(BeBytes(v, n)) == v
  {
    if n == 0 {
    } else {
      BeValueOfBytes(v / 256, n - 1);
      var bs := BeBytes(v, n);
      assert bs[..|bs| - 1] == BeBytes(v / 256, n - 1);
    }
  }

  lemma {:induction false} BeValueInjective(a: seq<byte>, b: seq<byte>)
    requires |a| == |b|
    ensures BeValue(a) == BeValue(b) <==> a == b
  {
    BeBytesOfValue(a);
    BeBytesOfValue(b);
  }

  /** Two's complement reading of an n-byte number. */
  function Signed(v: nat, n: nat): int {
    if 2 * v < Pow256(n) then v else v - Pow256(n)
  }

  function Unsigned(v: int, n: nat): int {
    if v < 0 then v + Pow256(n) else v
  }

  // ----- registers to bytes -----

  function High(w: word): byte { w / 256 }
  function Low(w: word): byte { w % 256 }
  function Word(high: byte, low: byte): word { high * 256 + low }

  function Reorder32(r: seq<word>, order: ByteOrder): (bs: seq<byte>)
    requires |r| >= 2
    ensures |bs| == 4
  {
    match order
    case BigEndian => [High(r[0]), Low(r[0]), High(r[1]), Low(r[1])]
    case LittleEndian => [Low(r[1]), High(r[1]), Low(r[0]), High(r[0])]
    case MidBigEndian => [High(r[1]), Low(r[1]), High(r[0]), Low(r[0])]
    case MidLittleEndian => [Low(r[0]), High(r[0]), Low(r[1]), High(r[1])]
  }

  function Reorder64(r: seq<word>, order: ByteOrder): (bs: seq<byte>)
    requires |r| >= 4
    ensures |bs| == 8
  {
    match order
    case BigEndian =>
      [High(r[0]), Low(r[0]), High(r[1]), Low(r[1]), High(r[2]), Low(r[2]), High(r[3]), Low(r[3])]
    case LittleEndian =>
      [Low(r[3]), High(r[3]), Low(r[2]), High(r[2]), Low(r[1]), High(r[1]), Low(r[0]), High(r[0])]
    case MidBigEndian =>
      [High(r[2]), Low(r[2]), High(r[3]), Low(r[3]), High(r[0]), Low(r[0]), High(r[1]), Low(r[1])]
    case MidLittleEndian =>
      [Low(r[0]), High(r[0]), Low(r[1]), High(r[1]), Low(r[2]), High(r[2]), Low(r[3]), High(r[3])]
  }

  /** The bytes of a multi-register value in the order `from_be_bytes` takes them. */
  function Reorder(r: seq<word>, dt: DataType, order: ByteOrder): (bs: seq<byte>)
    requires RegistersNeeded(dt) >= 2 && |r| >= RegistersNeeded(dt)
    ensures |bs| == 2 * RegistersNeeded(dt) == ByteCount(dt)
  {
    if RegistersNeeded(dt) == 2 then Reorder32(r, order) else Reorder64(r, order)
  }

  /** The value a byte string of the right length stands for, by type. */
  function Interpret(bs: seq<byte>, dt: DataType): Raw
    requires dt !in {U8, Bool}
  {
    match dt
    case U16 | U32 | U64 => Whole(BeValue(bs))
    case I16 | I32 | I64 => Whole(Signed(BeValue(bs), |bs|))
    case F32 => Single(BeValue(bs))
    case F64 => Double(BeValue(bs))
    case _ => Whole(0)
  }

  function Decode(r: seq<word>, dt: DataType, order: ByteOrder, scale: real, offset: real)
    : Result<Reading, DecodeError>
  {
    if |r| < RegistersNeeded(dt) then
      Err(InsufficientRegisters(RegistersNeeded(dt), |r|))
    else
      var raw :=
        match dt
        case Bool => Whole(if r[0] != 0 then 1 else 0)
        case U8 => Whole(Low(r[0]))
        case U16 => Whole(r[0])
        case I16 => Whole(Signed(r[0], 2))
        case _ => Interpret(Reorder(r, dt, order), dt);
      Ok(Reading(raw, scale, offset))
  }

  function Reverse(bs: seq<byte>): (rs: seq<byte>)
    ensures |rs| == |bs|
    ensures forall i :: 0 <= i < |bs| ==> rs[i] == bs[|bs| - 1 - i]
  {
    if bs == [] then [] else Reverse(bs[1..]) + [bs[0]]
  }

  function DecodeBytes(bytes: seq<byte>, dt: DataType, order: ByteOrder, scale: real, offset: real)
    : Result<Reading, DecodeError>
  {
    if |bytes| < ByteCount(dt) then
      Err(InsufficientRegisters(ByteCount(dt), |bytes|))
    else
      var b := bytes[..ByteCount(dt)];
      var raw :=
        match dt
        case Bool => Whole(if bytes[0] % 2 != 0 then 1 else 0)
        case U8 => Whole(bytes[0])
        case _ =>
          match order
          case BigEndian | MidBigEndian => Interpret(b, dt)
          case LittleEndian | MidLittleEndian => Interpret(Reverse(b), dt);
      Ok(Reading(raw, scale, offset))
  }

  // ----- encoding: the independent inverse -----

  /** Places bytes into registers so that reordering gives them back. */
  function Arrange(bs: seq<byte>, order: ByteOrder): (r: seq<word>)
    requires |bs| == 4 || |bs| == 8
    ensures |r| == |bs| / 2
  {
    if |bs| == 4 then
      match order
      case BigEndian => [Word(bs[0], bs[1]), Word(bs[2], bs[3])]
      case LittleEndian => [Word(bs[3], bs[2]), Word(bs[1], bs[0])]
      case MidBigEndian => [Word(bs[2], bs[3]), Word(bs[0], bs[1])]
      case MidLittleEndian => [Word(bs[1], bs[0]), Word(bs[3], bs[2])]
    else
      match order
      case BigEndian => [Word(bs[0], bs[1]), Word(bs[2], bs[3]), Word(bs[4], bs[5]), Word(bs[6], bs[7])]
      case LittleEndian => [Word(bs[7], bs[6]), Word(bs[5], bs[4]), Word(bs[3], bs[2]), Word(bs[1], bs[0])]
      case MidBigEndian => [Word(bs[4], bs[5]), Word(bs[6], bs[7]), Word(bs[0], bs[1]), Word(bs[2], bs[3])]
      case MidLittleEndian => [Word(bs[1], bs[0]), Word(bs[3], bs[2]), Word(bs[5], bs[4]), Word(bs[7], bs[6])]
  }

  predicate IsInteger(dt: DataType) { dt in {U16, I16, U32, I32, U64, I64} }
  predicate IsSigned(dt: DataType) { dt in {I16, I32, I64} }

  /** The exact range of an integer type. */
  predicate InRange(n: int, dt: DataType)
    requires IsInteger(dt)
  {
    var size: int := Pow256(ByteCount(dt));
    if IsSigned(dt) then -size <= 2 * n < size else 0 <= n < size
  }

  function Encode(n: int, dt: DataType, order: ByteOrder): (r: seq<word>)
    requires IsInteger(dt) && InRange(n, dt)
    ensures |r| == RegistersNeeded(dt)
  {
    var u := Unsigned(n, ByteCount(dt));
    if ByteCount(dt) == 2 then
      assert Pow256(2) == 0x1_0000;
      [u]
    else Arrange(BeBytes(u, ByteCount(dt)), order)
  }

  // ----- reordering is a bijection -----

  lemma {:induction false} WordBytes(w: word)
    ensures Word(High(w), Low(w)) == w
  {}

  lemma {:induction false} WordParts(high: byte, low: byte)
    ensures High(Word(high, low)) == high && Low(Word(high, low)) == low
  {}

  lemma {:induction false} ReorderArrange4(bs: seq<byte>, order: ByteOrder)
    requires |bs| == 4
    ensures Reorder32(Arrange(bs, order), order) == bs
  {
    match order
    case BigEndian | MidBigEndian =>
      WordParts(bs[0], bs[1]);
      WordParts(bs[2], bs[3]);
    case LittleEndian | MidLittleEndian =>
      WordParts(bs[1], bs[0]);
      WordParts(bs[3], bs[2]);
  }

  lemma {:induction false} ReorderArrange8(bs: seq<byte>, order: ByteOrder)
    requires |bs| == 8
    ensures Reorder64(Arrange(bs, order), order) == bs
  {
    match order
    case BigEndian | MidBigEndian =>
      WordParts(bs[0], bs[1]);
      WordParts(bs[2], bs[3]);
      WordParts(bs[4], bs[5]);
      WordParts(bs[6], bs[7]);
    case LittleEndian | MidLittleEndian =>
      WordParts(bs[1], bs[0]);
      WordParts(bs[3], bs[2]);
      WordParts(bs[5], bs[4]);
      WordParts(bs[7], bs[6]);
  }

  lemma {:induction false} ReorderArrange(bs: seq<byte>, dt: DataType, order: ByteOrder)
    requires RegistersNeeded(dt) >= 2 && |bs| == ByteCount(dt)
    ensures Reorder(Arrange(bs, order), dt, order) == bs
  {
    if |bs| == 4 {
      ReorderArrange4(bs, order);
    } else {
      ReorderArrange8(bs, order);
    }
  }

  lemma {:induction false} ArrangeReorder(r: seq<word>, dt: DataType, order: ByteOrder)
    requires RegistersNeeded(dt) >= 2 && |r| == RegistersNeeded(dt)
    ensures Arrange(Reorder(r, dt, order), order) == r
  {
    forall i | 0 <= i < |r| ensures Arrange(Reorder(r, dt, order), order)[i] == r[i] {
      WordBytes(r[i]);
    }
  }

  // ----- round trips -----

  /** Every value of every integer type survives encode then decode, in each
      byte order. */
  lemma {:induction false} DecodeEncode(n: int, dt: DataType, order: ByteOrder, scale: real, offset: real)
    requires IsInteger(dt) && InRange(n, dt)
    ensures Decode(Encode(n, dt, order), dt, order, scale, offset) == Ok(Reading(Whole(n), scale, offset))
  {
    UnsignedInverse(n, dt);
    if ByteCount(dt) == 2 {
      assert Pow256(2) == 0x1_0000;
    } else {
      EncodedBytes(n, dt, order);
    }
  }

  lemma {:induction false} EncodedBytes(n: int, dt: DataType, order: ByteOrder)
    requires IsInteger(dt) && InRange(n, dt) && ByteCount(dt) > 2
    ensures BeValue(Reorder(Encode(n, dt, order), dt, order)) == Unsigned(n, ByteCount(dt))
  {
    var size := ByteCount(dt);
    var u := Unsigned(n, size);
    UnsignedInverse(n, dt);
    BeValueOfBytes(u, size);
    ReorderArrange(BeBytes(u, size), dt, order);
  }

  lemma {:induction false} UnsignedInverse(n: int, dt: DataType)
    requires IsInteger(dt) && InRange(n, dt)
    ensures var u := Unsigned(n, ByteCount(dt));
            && 0 <= u < Pow256(ByteCount(dt))
            && (if IsSigned(dt) then Signed(u, ByteCount(dt)) else u) == n
  {}

  /** Every register content is the encoding of exactly the integer it decodes
      to, and that integer lies in the type's range. */
  lemma {:induction false} EncodeDecode(r: seq<word>, dt: DataType, order: ByteOrder, scale: real, offset: real)
    requires IsInteger(dt) && |r| == RegistersNeeded(dt)
    ensures var d := Decode(r, dt, order, scale, offset);
            && d.Ok? && d.value.raw.Whole?
            && InRange(d.value.raw.n, dt)
            && Encode(d.value.raw.n, dt, order) == r
  {
    if ByteCount(dt) == 2 {
      assert Pow256(2) == 0x1_0000;
      SignedInverse(r[0], dt);
    } else {
      var bs := Reorder(r, dt, order);
      BeValueBound(bs);
      SignedInverse(BeValue(bs), dt);
      BytesEncoded(r, dt, order);
    }
  }

  lemma {:induction false} BytesEncoded(r: seq<word>, dt: DataType, order: ByteOrder)
    requires RegistersNeeded(dt) >= 2 && |r| == RegistersNeeded(dt)
    ensures Arrange(BeBytes(BeValue(Reorder(r, dt, order)), ByteCount(dt)), order) == r
  {
    BeBytesOfValue(Reorder(r, dt, order));
    ArrangeReorder(r, dt, order);
  }

  /** Reading a number as an integer type lands in the type's range and loses
      nothing. */
  lemma {:induction false} SignedInverse(v: nat, dt: DataType)
    requires IsInteger(dt) && v < Pow256(ByteCount(dt))
    ensures var n := if IsSigned(dt) then Signed(v, ByteCount(dt)) else v;
            InRange(n, dt) && Unsigned(n, ByteCount(dt)) == v
  {}

  // ----- the two decoders -----

  /** The bytes of registers as they travel on the wire. */
  function Wire(r: seq<word>): (bs: seq<byte>)
    ensures |bs| == 2 * |r|
  {
    if r == [] then [] else [High(r[0]), Low(r[0])] + Wire(r[1..])
  }

  /** What `DecodeBytes` makes of the wire bytes under each byte order. */
  function WireOrder(order: ByteOrder): ByteOrder {
    match order
    case BigEndian | MidBigEndian => BigEndian
    case LittleEndian | MidLittleEndian => LittleEndian
  }

  /** The registers as the byte decoder sees them: it takes single-byte types from the
      high half of the register, and turns a little-endian single register round. */
  function Glimpsed(r: seq<word>, dt: DataType, order: ByteOrder): seq<word>
    requires |r| == RegistersNeeded(dt)
  {
    match dt
    case Bool => [High(r[0]) % 2]
    case U8 => [High(r[0])]
    case U16 | I16 => if WireOrder(order) == BigEndian then r else [Word(Low(r[0]), High(r[0]))]
    case _ => r
  }

  /** `DecodeBytes` on wire bytes is `Decode` on the registers as it sees them, with
      the middle orders read as their plain counterparts. */
  lemma {:induction false} DecodeBytesOnWire(r: seq<word>, dt: DataType, order: ByteOrder, scale: real, offset: real)
    requires |r| == RegistersNeeded(dt)
    ensures DecodeBytes(Wire(r), dt, order, scale, offset) == Decode(Glimpsed(r, dt, order), dt, WireOrder(order), scale, offset)
  {
    var w := Wire(r);
    if |r| == 1 {
      SingleOnWire(r, dt, order, scale, offset);
    } else {
      assert w[..ByteCount(dt)] == w;
      if |r| == 2 {
        Wire32(r);
      } else {
        Wire64(r);
      }
    }
  }

  lemma {:induction false} SingleOnWire(r: seq<word>, dt: DataType, order: ByteOrder, scale: real, offset: real)
    requires |r| == 1 == RegistersNeeded(dt)
    ensures DecodeBytes(Wire(r), dt, order, scale, offset) == Decode(Glimpsed(r, dt, order), dt, WireOrder(order), scale, offset)
  {
    assert Wire(r[1..]) == [];
    var w := Wire(r);
    assert w == [High(r[0]), Low(r[0])];
    WordBytes(r[0]);
    if dt == U16 || dt == I16 {
      assert w[..2] == w;
      PairValue(w);
      PairValue(Reverse(w));
      assert Reverse(w)[0] == w[1] && Reverse(w)[1] == w[0];
    } else {
      WordParts(0, High(r[0]));
      WordParts(0, High(r[0]) % 2);
    }
  }

  lemma {:induction false} PairValue(bs: seq<byte>)
    requires |bs| == 2
    ensures BeValue(bs) == Word(bs[0], bs[1])
  {
    var front := bs[..1];
    assert front[..0] == [] && BeValue(front[..0]) == 0;
    assert BeValue(front) == bs[0];
  }

  lemma {:induction false} Wire32(r: seq<word>)
    requires |r| == 2
    ensures Wire(r) == Reorder32(r, BigEndian)
    ensures Reverse(Wire(r)) == Reorder32(r, LittleEndian)
  {
    WireCons(r[0], r[1..]);
    WireCons(r[1], []);
    assert r == [r[0]] + r[1..] && r[1..] == [r[1]] + [];
    Reverse4(Wire(r));
  }

  lemma {:induction false} Wire64(r: seq<word>)
    requires |r| == 4
    ensures Wire(r) == Reorder64(r, BigEndian)
    ensures Reverse(Wire(r)) == Reorder64(r, LittleEndian)
  {
    Wire32(r[..2]);
    Wire32(r[2..]);
    WireConcat(r[..2], r[2..]);
    assert r == r[..2] + r[2..];
    Reverse8(Wire(r));
  }

  lemma {:induction false} WireCons(w: word, r: seq<word>)
    ensures Wire([w] + r) == [High(w), Low(w)] + Wire(r)
  {
    assert ([w] + r)[1..] == r;
  }

  lemma {:induction false} WireConcat(r: seq<word>, s: seq<word>)
    ensures Wire(r + s) == Wire(r) + Wire(s)
  {
    if r == [] {
      assert r + s == s;
    } else {
      WireConcat(r[1..], s);
      WireCons(r[0], r[1..] + s);
      WireCons(r[0], r[1..]);
      assert r + s == [r[0]] + (r[1..] + s) && r == [r[0]] + r[1..];
      assert [High(r[0]), Low(r[0])] + (Wire(r[1..]) + Wire(s)) == ([High(r[0]), Low(r[0])] + Wire(r[1..])) + Wire(s);
    }
  }

  lemma {:induction false} Reverse4(bs: seq<byte>)
    requires |bs| == 4
    ensures Reverse(bs) == [bs[3], bs[2], bs[1], bs[0]]
  {}

  lemma {:induction false} Reverse8(bs: seq<byte>)
    requires |bs| == 8
    ensures Reverse(bs) == [bs[7], bs[6], bs[5], bs[4], bs[3], bs[2], bs[1], bs[0]]
  {}

  /** Exchanges the two halves of a register sequence. */
  function SwapHalves(r: seq<word>): (s: seq<word>)
    ensures |s| == |r|
  {
    r[|r| / 2..] + r[..|r| / 2]
  }

  function ReverseRegisters(r: seq<word>): (s: seq<word>)
    ensures |s| == |r|
    ensures forall i :: 0 <= i < |r| ==> s[i] == r[|r| - 1 - i]
  {
    if r == [] then [] else ReverseRegisters(r[1..]) + [r[0]]
  }

  function SwapBytes(r: seq<word>): (s: seq<word>)
    ensures |s| == |r|
    ensures forall i :: 0 <= i < |r| ==> s[i] == Word(Low(r[i]), High(r[i]))
  {
    if r == [] then [] else [Word(Low(r[0]), High(r[0]))] + SwapBytes(r[1..])
  }

  lemma {:induction false} MidBigIsSwappedHalves(r: seq<word>, dt: DataType)
    requires RegistersNeeded(dt) >= 2 && |r| == RegistersNeeded(dt)
    ensures Reorder(r, dt, MidBigEndian) == Reorder(SwapHalves(r), dt, BigEndian)
  {}

  lemma {:induction false} MidLittleIsSwappedBytes(r: seq<word>, dt: DataType)
    requires RegistersNeeded(dt) >= 2 && |r| == RegistersNeeded(dt)
    ensures Reorder(r, dt, MidLittleEndian) == Reorder(SwapBytes(r), dt, BigEndian)
  {
    var s := SwapBytes(r);
    forall i | 0 <= i < |r| ensures High(s[i]) == Low(r[i]) && Low(s[i]) == High(r[i]) {
      WordParts(Low(r[i]), High(r[i]));
    }
  }

  /** The middle orders are big-endian after the stated word or byte swap. */
  lemma {:induction false} MidOrdersReduceToBigEndian(r: seq<word>, dt: DataType, scale: real, offset: real)
    requires RegistersNeeded(dt) >= 2 && |r| == RegistersNeeded(dt)
    ensures Decode(r, dt, MidBigEndian, scale, offset) == Decode(SwapHalves(r), dt, BigEndian, scale, offset)
    ensures Decode(r, dt, MidLittleEndian, scale, offset) == Decode(SwapBytes(r), dt, BigEndian, scale, offset)
  {
    MidBigIsSwappedHalves(r, dt);
    MidLittleIsSwappedBytes(r, dt);
  }

  /** The register rearrangement that separates a byte order from its wire order. */
  function WireSwap(r: seq<word>, order: ByteOrder): (s: seq<word>)
    ensures |s| == |r|
  {
    match order
    case BigEndian | LittleEndian => r
    case MidBigEndian => SwapHalves(r)
    case MidLittleEndian => ReverseRegisters(r)
  }

  lemma {:induction false} ReorderIsWireSwap(r: seq<word>, dt: DataType, order: ByteOrder)
    requires RegistersNeeded(dt) >= 2 && |r| == RegistersNeeded(dt)
    ensures Reorder(r, dt, order) == Reorder(WireSwap(r, order), dt, WireOrder(order))
  {}

  lemma {:induction false} ReorderInjective(r: seq<word>, s: seq<word>, dt: DataType, order: ByteOrder)
    requires RegistersNeeded(dt) >= 2 && |r| == |s| == RegistersNeeded(dt)
    ensures Reorder(r, dt, order) == Reorder(s, dt, order) <==> r == s
  {
    ArrangeReorder(r, dt, order);
    ArrangeReorder(s, dt, order);
  }

  lemma {:induction false} InterpretInjective(a: seq<byte>, b: seq<byte>, dt: DataType)
    requires |a| == |b| && dt !in {U8, Bool}
    ensures Interpret(a, dt) == Interpret(b, dt) <==> a == b
  {
    BeValueInjective(a, b);
    BeValueBound(a);
    BeValueBound(b);
  }

  lemma {:induction false} MultiAgreeExactly(r: seq<word>, dt: DataType, order: ByteOrder, scale: real, offset: real)
    requires RegistersNeeded(dt) >= 2 && |r| == RegistersNeeded(dt)
    ensures Decode(r, dt, order, scale, offset) == DecodeBytes(Wire(r), dt, order, scale, offset)
       <==> r == WireSwap(r, order)
  {
    DecodeBytesOnWire(r, dt, order, scale, offset);
    ReorderIsWireSwap(r, dt, order);
    ReorderInjective(WireSwap(r, order), r, dt, WireOrder(order));
    InterpretInjective(Reorder(r, dt, order), Reorder(r, dt, WireOrder(order)), dt);
  }

  /** When the two decoders agree on a value: for several registers, if the
      rearrangement its byte order asks for leaves them as they are - always for the
      plain orders; for a 16-bit value, in the big orders or if its bytes are equal;
      for a byte, if both halves of the register hold it; for a boolean, if the low
      bit of the high half says whether the register is not zero. */
  predicate Agreeing(r: seq<word>, dt: DataType, order: ByteOrder)
    requires |r| == RegistersNeeded(dt)
  {
    match dt
    case Bool => r[0] != 0 <==> High(r[0]) % 2 != 0
    case U8 => High(r[0]) == Low(r[0])
    case U16 | I16 => WireOrder(order) == BigEndian || High(r[0]) == Low(r[0])
    case _ => r == WireSwap(r, order)
  }

  lemma {:induction false} DecodersAgreeExactly(r: seq<word>, dt: DataType, order: ByteOrder, scale: real, offset: real)
    requires |r| == RegistersNeeded(dt)
    ensures Decode(r, dt, order, scale, offset) == DecodeBytes(Wire(r), dt, order, scale, offset) <==> Agreeing(r, dt, order)
  {
    if |r| > 1 {
      MultiAgreeExactly(r, dt, order, scale, offset);
    } else {
      DecodeBytesOnWire(r, dt, order, scale, offset);
      WordBytes(r[0]);
      WordParts(0, High(r[0]));
      WordParts(0, High(r[0]) % 2);
      WordParts(Low(r[0]), High(r[0]));
    }
  }

  // ----- what registers and bytes stand for -----

  /** Registers, the most significant first, as one number. */
  function Number(r: seq<word>): nat {
    if r == [] then 0 else Number(r[..|r| - 1]) * 0x1_0000 + r[|r| - 1]
  }

  /** The registers of a value with the most significant first and the high byte of
      each first. */
  function Significant(r: seq<word>, order: ByteOrder): (s: seq<word>)
    ensures |s| == |r|
  {
    match order
    case BigEndian => r
    case LittleEndian => SwapBytes(ReverseRegisters(r))
    case MidBigEndian => SwapHalves(r)
    case MidLittleEndian => SwapBytes(r)
  }

  /** Does a number of so many bits, read as this type, stand for the raw value? */
  predicate Means(v: nat, dt: DataType, raw: Raw) {
    match dt
    case Bool => raw == Whole(if v == 0 then 0 else 1)
    case U8 | U16 | U32 | U64 => raw == Whole(v)
    case I16 => raw == Whole(if v < 0x8000 then v else v - 0x1_0000)
    case I32 => raw == Whole(if v < 0x8000_0000 then v else v - 0x1_0000_0000)
    case I64 => raw == Whole(if v < 0x8000_0000_0000_0000 then v else v - 0x1_0000_0000_0000_0000)
    case F32 => raw == Single(v)
    case F64 => raw == Double(v)
  }

  /** Do the registers from the first on carry the raw value? A byte is the low half
      of its register; single registers have no order. */
  predicate Carries(r: seq<word>, dt: DataType, order: ByteOrder, raw: Raw) {
    match dt
    case Bool | U16 | I16 => |r| >= 1 && Means(r[0], dt, raw)
    case U8 => |r| >= 1 && Means(r[0] % 0x100, dt, raw)
    case U32 | I32 | F32 => |r| >= 2 && Means(Number(Significant(r[..2], order)), dt, raw)
    case U64 | I64 | F64 => |r| >= 4 && Means(Number(Significant(r[..4], order)), dt, raw)
  }

  /** Do the bytes from the first on carry the raw value? A boolean is the low bit of
      its byte; the middle orders are read as the plain ones. */
  predicate BytesCarry(bs: seq<byte>, dt: DataType, order: ByteOrder, raw: Raw) {
    var little := order.LittleEndian? || order.MidLittleEndian?;
    match dt
    case Bool => |bs| >= 1 && Means(bs[0] % 2, dt, raw)
    case U8 => |bs| >= 1 && Means(bs[0], dt, raw)
    case U16 | I16 => |bs| >= 2 && Means(if little then BeValue(Reverse(bs[..2])) else BeValue(bs[..2]), dt, raw)
    case U32 | I32 | F32 => |bs| >= 4 && Means(if little then BeValue(Reverse(bs[..4])) else BeValue(bs[..4]), dt, raw)
    case U64 | I64 | F64 => |bs| >= 8 && Means(if little then BeValue(Reverse(bs[..8])) else BeValue(bs[..8]), dt, raw)
  }

  lemma {:induction false} BeValueAppend(bs: seq<byte>, w: word)
    ensures BeValue(bs + [High(w), Low(w)]) == BeValue(bs) * 0x1_0000 + w
  {
    var all := bs + [High(w), Low(w)];
    var front := all[..|all| - 1];
    assert front == bs + [High(w)];
    assert front[..|front| - 1] == bs;
  }

  lemma {:induction false} WireNumber(r: seq<word>)
    ensures BeValue(Wire(r)) == Number(r)
  {
    if r == [] {
      assert Wire(r) == [];
    } else {
      var front, last := r[..|r| - 1], r[|r| - 1];
      WireNumber(front);
      assert r == front + [last];
      WireConcat(front, [last]);
      WireCons(last, []);
      assert [last] + [] == [last];
      assert Wire(r) == Wire(front) + [High(last), Low(last)];
      BeValueAppend(Wire(front), last);
    }
  }

  lemma {:induction false} LittleIsReversed(r: seq<word>, dt: DataType)
    requires RegistersNeeded(dt) >= 2 && |r| == RegistersNeeded(dt)
    ensures Reorder(r, dt, LittleEndian) == Reorder(Significant(r, LittleEndian), dt, BigEndian)
  {
    var s := Significant(r, LittleEndian);
    forall i | 0 <= i < |r| ensures High(s[i]) == Low(r[|r| - 1 - i]) && Low(s[i]) == High(r[|r| - 1 - i]) {
      WordParts(Low(r[|r| - 1 - i]), High(r[|r| - 1 - i]));
    }
  }

  lemma {:induction false} ReorderSignificant(r: seq<word>, dt: DataType, order: ByteOrder)
    requires RegistersNeeded(dt) >= 2 && |r| == RegistersNeeded(dt)
    ensures Reorder(r, dt, order) == Reorder(Significant(r, order), dt, BigEndian)
  {
    match order
    case BigEndian =>
    case LittleEndian => LittleIsReversed(r, dt);
    case MidBigEndian => MidBigIsSwappedHalves(r, dt);
    case MidLittleEndian => MidLittleIsSwappedBytes(r, dt);
  }

  lemma {:induction false} BigNumber(r: seq<word>, dt: DataType)
    requires RegistersNeeded(dt) >= 2 && |r| == RegistersNeeded(dt)
    ensures BeValue(Reorder(r, dt, BigEndian)) == Number(r)
  {
    WireNumber(r);
    if |r| == 2 {
      Wire32(r);
    } else {
      Wire64(r);
    }
  }

  /** Reordering puts the bytes of a value in the order of their weight. */
  lemma {:induction false} ReorderedNumber(r: seq<word>, dt: DataType, order: ByteOrder)
    requires RegistersNeeded(dt) >= 2 && |r| == RegistersNeeded(dt)
    ensures BeValue(Reorder(r, dt, order)) == Number(Significant(r, order))
  {
    ReorderSignificant(r, dt, order);
    BigNumber(Significant(r, order), dt);
  }

  lemma {:induction false} Powers()
    ensures Pow256(2) == 0x1_0000 && Pow256(4) == 0x1_0000_0000 && Pow256(8) == 0x1_0000_0000_0000_0000
  {
    assert Pow256(2) == 256 * Pow256(1) && Pow256(1) == 256 * Pow256(0);
    assert Pow256(4) == 256 * Pow256(3) && Pow256(3) == 256 * Pow256(2);
    assert Pow256(8) == 256 * Pow256(7) && Pow256(7) == 256 * Pow256(6);
    assert Pow256(6) == 256 * Pow256(5) && Pow256(5) == 256 * Pow256(4);
  }

  lemma {:induction false} InterpretMeans(bs: seq<byte>, dt: DataType, raw: Raw)
    requires dt !in {U8, Bool} && |bs| == ByteCount(dt)
    ensures Interpret(bs, dt) == raw <==> Means(BeValue(bs), dt, raw)
  {
    Powers();
  }

  lemma {:induction false} ReorderPrefix(r: seq<word>, dt: DataType, order: ByteOrder)
    requires RegistersNeeded(dt) >= 2 && |r| >= RegistersNeeded(dt)
    ensures Reorder(r, dt, order) == Reorder(r[..RegistersNeeded(dt)], dt, order)
  {
  }

  /** The register decoder on any registers, for every type and order: it delivers a
      value if and only if they carry it, with the scale and offset it was given;
      registers beyond the needed ones do not matter. */
  lemma {:induction false} DecodeIsCarried(r: seq<word>, dt: DataType, order: ByteOrder, scale: real, offset: real, raw: Raw)
    ensures Decode(r, dt, order, scale, offset) == Ok(Reading(raw, scale, offset)) <==> Carries(r, dt, order, raw)
  {
    if |r| >= RegistersNeeded(dt) {
      if RegistersNeeded(dt) >= 2 {
        var s := r[..RegistersNeeded(dt)];
        ReorderPrefix(r, dt, order);
        ReorderedNumber(s, dt, order);
        InterpretMeans(Reorder(s, dt, order), dt, raw);
      } else {
        Powers();
      }
    }
  }

  /** The byte decoder likewise. */
  lemma {:induction false} DecodeBytesIsCarried(bs: seq<byte>, dt: DataType, order: ByteOrder, scale: real, offset: real, raw: Raw)
    ensures DecodeBytes(bs, dt, order, scale, offset) == Ok(Reading(raw, scale, offset)) <==> BytesCarry(bs, dt, order, raw)
  {
    if |bs| >= ByteCount(dt) && dt != Bool && dt != U8 {
      var b := bs[..ByteCount(dt)];
      InterpretMeans(if order.LittleEndian? || order.MidLittleEndian? then Reverse(b) else b, dt, raw);
    }
  }

  /** The registers or bytes that are missing are the only error. */
  lemma {:induction false} DecodeFails(r: seq<word>, bs: seq<byte>, dt: DataType, order: ByteOrder, scale: real, offset: real)
    ensures Decode(r, dt, order, scale, offset).Err? <==> forall raw :: !Carries(r, dt, order, raw)
    ensures DecodeBytes(bs, dt, order, scale, offset).Err? <==> forall raw :: !BytesCarry(bs, dt, order, raw)
  {
    var d, e := Decode(r, dt, order, scale, offset), DecodeBytes(bs, dt, order, scale, offset);
    if d.Ok? {
      DecodeIsCarried(r, dt, order, scale, offset, d.value.raw);
    } else {
      forall raw ensures !Carries(r, dt, order, raw) {
        DecodeIsCarried(r, dt, order, scale, offset, raw);
      }
    }
    if e.Ok? {
      DecodeBytesIsCarried(bs, dt, order, scale, offset, e.value.raw);
    } else {
      forall raw ensures !BytesCarry(bs, dt, order, raw) {
        DecodeBytesIsCarried(bs, dt, order, scale, offset, raw);
      }
    }
  }

  // ----- floats -----

  predicate IsFloat(dt: DataType) { dt == F32 || dt == F64 }

  /** Every bit pattern of either float type survives its way through the registers,
      in each byte order. */
  lemma {:induction false} FloatDecodeEncode(v: nat, dt: DataType, order: ByteOrder, scale: real, offset: real)
    requires (dt == F32 && v < 0x1_0000_0000) || (dt == F64 && v < 0x1_0000_0000_0000_0000)
    ensures Decode(Arrange(BeBytes(v, ByteCount(dt)), order), dt, order, scale, offset)
         == Ok(Reading(if dt == F32 then Single(v) else Double(v), scale, offset))
  {
    Powers();
    var size := ByteCount(dt);
    BeValueOfBytes(v, size);
    ReorderArrange(BeBytes(v, size), dt, order);
  }

  /** And every register content is the encoding of exactly the bit pattern it decodes
      to. */
  lemma {:induction false} FloatEncodeDecode(r: seq<word>, dt: DataType, order: ByteOrder, scale: real, offset: real)
    requires IsFloat(dt) && |r| == RegistersNeeded(dt)
    ensures var d := Decode(r, dt, order, scale, offset);
            && d.Ok? && d.value.scale == scale && d.value.offset == offset
            && (if dt == F32 then
                  && d.value.raw.Single? && d.value.raw.bits < 0x1_0000_0000
                  && Arrange(BeBytes(d.value.raw.bits, 4), order) == r
                else
                  && d.value.raw.Double? && d.value.raw.bits < 0x1_0000_0000_0000_0000
                  && Arrange(BeBytes(d.value.raw.bits, 8), order) == r)
  {
    Powers();
    BeValueBound(Reorder(r, dt, order));
    BytesEncoded(r, dt, order);
  }
}
