/** Parameter values and their wire forms (core/mavlink_parameters.h): ten scalar types, packed into
    a 128-byte buffer by the extended protocol and into four bytes by the plain one. */
module ParamValues {
  import opened BoundedInts
  import opened Wrappers

  /** The contents of `Any`. Floating-point values are their bit patterns; `Null` is a default
      constructed value; `Custom` is one of the custom type, an array that `Any` stores as its address
      (core/any.h:14-21), so that its contents are those of the memory there. */
  datatype Value =
    | Null | Custom
    | Uint8(u8: byte) | Int8(i8: int8)
    | Uint16(u16: uint16) | Int16(i16: int16)
    | Uint32(u32: uint32) | Int32(i32: int32)
    | Uint64(u64: uint64) | Int64(i64: int64)
    | Real32(bits32: uint32) | Real64(bits64: uint64)

  /** MAV_PARAM_EXT_TYPE and, for the types it shares, MAV_PARAM_TYPE. */
  datatype Tag =
    | UINT8 | INT8 | UINT16 | INT16 | UINT32 | INT32 | UINT64 | INT64 | REAL32 | REAL64 | CUSTOM | UNKNOWN

  // ---------------------------------------------------------------- memory images

  function Pow256(width: nat): (p: nat)
    ensures p > 0
  {
    if width == 0 then 1 else 0x100 * Pow256(width - 1)
  }

  function LittleEndian(n: nat, width: nat): (bytes: seq<byte>)
    ensures |bytes| == width
  {
    if width == 0 then [] else [n % 0x100] + LittleEndian(n / 0x100, width - 1)
  }

  function FromLittleEndian(bytes: seq<byte>): nat {
    if bytes == [] then 0 else bytes[0] + 0x100 * FromLittleEndian(bytes[1..])
  }

  lemma {:induction false} LittleEndianRoundTrip(n: nat, width: nat)
    requires n < Pow256(width)
    ensures FromLittleEndian(LittleEndian(n, width)) == n
  {
    if width > 0 {
      LittleEndianRoundTrip(n / 0x100, width - 1);
      assert LittleEndian(n, width)[1..] == LittleEndian(n / 0x100, width - 1);
    }
  }

  lemma Widths()
    ensures Pow256(1) == 0x100 && Pow256(2) == 0x1_0000 && Pow256(4) == 0x1_0000_0000
    ensures Pow256(8) == 0x1_0000_0000_0000_0000
  {
    assert Pow256(3) == 0x100_0000;
    assert Pow256(4) == 0x1_0000_0000;
    assert Pow256(6) == 0x1_0000_0000_0000;
    assert Pow256(7) == 0x100_0000_0000_0000;
  }

  /** Two's complement. */
  function Wrap(n: int, width: nat): int {
    if n < 0 then n + Pow256(width) else n
  }

  function Unwrap(n: nat, width: nat): int {
    if 2 * n < Pow256(width) then n else n - Pow256(width)
  }

  // ---------------------------------------------------------------- the extended protocol

  function TagOf(v: Value): Tag {
    match v
    case Null => UNKNOWN
    case Custom => CUSTOM
    case Uint8(_) => UINT8
    case Int8(_) => INT8
    case Uint16(_) => UINT16
    case Int16(_) => INT16
    case Uint32(_) => UINT32
    case Int32(_) => INT32
    case Uint64(_) => UINT64
    case Int64(_) => INT64
    case Real32(_) => REAL32
    case Real64(_) => REAL64
  }

  function Width(tag: Tag): (width: nat)
    ensures width <= 8
  {
    match tag
    case UINT8 => 1
    case INT8 => 1
    case UINT16 => 2
    case INT16 => 2
    case UINT32 => 4
    case INT32 => 4
    case UINT64 => 8
    case INT64 => 8
    case REAL32 => 4
    case REAL64 => 8
    case CUSTOM => 0
    case UNKNOWN => 0
  }

  /** The unsigned number with the same memory image. */
  function Image(v: Value): (n: nat)
    ensures n < Pow256(Width(TagOf(v)))
  {
    Widths();
    match v
    case Null => 0
    case Custom => 0
    case Uint8(n) => n
    case Int8(n) => Wrap(n, 1)
    case Uint16(n) => n
    case Int16(n) => Wrap(n, 2)
    case Uint32(n) => n
    case Int32(n) => Wrap(n, 4)
    case Uint64(n) => n
    case Int64(n) => Wrap(n, 8)
    case Real32(bits) => bits
    case Real64(bits) => bits
  }

  function FromImage(tag: Tag, n: nat): Value
    requires n < Pow256(Width(tag))
  {
    Widths();
    match tag
    case UINT8 => Uint8(n)
    case INT8 => Int8(Unwrap(n, 1))
    case UINT16 => Uint16(n)
    case INT16 => Int16(Unwrap(n, 2))
    case UINT32 => Uint32(n)
    case INT32 => Int32(Unwrap(n, 4))
    case UINT64 => Uint64(n)
    case INT64 => Int64(Unwrap(n, 8))
    case REAL32 => Real32(n)
    case REAL64 => Real64(n)
    case CUSTOM => Custom
    case UNKNOWN => Null
  }

  lemma {:induction false} FromLittleEndianFits(bytes: seq<byte>)
    ensures FromLittleEndian(bytes) < Pow256(|bytes|)
  {
    if bytes != [] {
      FromLittleEndianFits(bytes[1..]);
    }
  }

  const BUFFER := 128

  /** The bytes of a value of a scalar type. */
  function Packed(v: Value): (bytes: seq<byte>)
    ensures |bytes| == Width(TagOf(v)) <= BUFFER
  {
    LittleEndian(Image(v), Width(TagOf(v)))
  }

  /** `set_from_mavlink_param_ext_value`: reads as many bytes as the tag says. An unknown tag fails an
      assertion, see `Parameters.ExtValueArrives`. */
  function Unpacked(tag: Tag, bytes: seq<byte>): Value
    requires |bytes| == BUFFER
  {
    FromLittleEndianFits(bytes[..Width(tag)]);
    FromImage(tag, FromLittleEndian(bytes[..Width(tag)]))
  }

  method Memcpy(buffer: array<byte>, bytes: seq<byte>)
    requires |bytes| <= buffer.Length
    modifies buffer
    ensures buffer[..] == bytes + old(buffer[|bytes|..])
  {
    for i := 0 to |bytes|
      invariant buffer[..i] == bytes[..i] && buffer[i..] == old(buffer[i..])
    {
      buffer[i] := bytes[i];
    }
    assert buffer[..] == buffer[..|bytes|] + buffer[|bytes|..];
  }

  /** `get_128_bytes`: overwrites the start of the buffer and leaves the rest. For a custom value it copies
      `memory`, what the 128 bytes at the stored address hold. */
  method Get128Bytes(v: Value, memory: seq<byte>, buffer: array<byte>)
    requires buffer.Length == |memory| == BUFFER
    modifies buffer
    ensures buffer[..] == if v.Custom? then memory else Packed(v) + old(buffer[|Packed(v)|..])
  {
    if v.Custom? {
      Memcpy(buffer, memory);
    } else {
      Memcpy(buffer, Packed(v));
    }
  }

  /** Reading an image back by the tag of its value gives the value. */
  lemma ImageRoundTrip(v: Value)
    ensures FromImage(TagOf(v), Image(v)) == v
  {
    hide Pow256;
    Widths();
  }

  /** A value packed into any buffer and read back by its own tag is the same value. */
  lemma PackingRoundTrip(v: Value, buffer: seq<byte>)
    requires |buffer| == BUFFER
    ensures Unpacked(TagOf(v), Packed(v) + buffer[|Packed(v)|..]) == v
  {
    hide Pow256, Image, FromImage, LittleEndian, FromLittleEndian;
    var bytes := Packed(v) + buffer[|Packed(v)|..];
    assert bytes[..Width(TagOf(v))] == Packed(v);
    LittleEndianRoundTrip(Image(v), Width(TagOf(v)));
    ImageRoundTrip(v);
  }

  // ---------------------------------------------------------------- the bytes on the wire

  /** The number a value stands for; of a floating-point value its bit pattern. */
  function Number(v: Value): int {
    match v
    case Null => 0
    case Custom => 0
    case Uint8(n) => n
    case Int8(n) => n
    case Uint16(n) => n
    case Int16(n) => n
    case Uint32(n) => n
    case Int32(n) => n
    case Uint64(n) => n
    case Int64(n) => n
    case Real32(bits) => bits
    case Real64(bits) => bits
  }

  /** The i-th byte of a number, the lowest first, a negative one in two's complement. */
  function ByteOf(n: int, i: nat): byte
    decreases i
  {
    if i == 0 then n % 0x100 else ByteOf(n / 0x100, i - 1)
  }

  lemma {:induction false} LittleEndianAt(n: nat, width: nat, i: nat)
    requires i < width
    ensures LittleEndian(n, width)[i] == ByteOf(n, i)
  {
    if i > 0 {
      LittleEndianAt(n / 0x100, width - 1, i - 1);
    }
  }

  /** Adding the width's bound to a negative number changes none of its bytes. */
  lemma {:induction false} BytesModulo(n: int, width: nat, i: nat)
    requires i < width
    ensures ByteOf(n + Pow256(width), i) == ByteOf(n, i)
    decreases i
  {
    if i > 0 {
      BytesModulo(n / 0x100, width - 1, i - 1);
      assert (n + Pow256(width)) / 0x100 == n / 0x100 + Pow256(width - 1);
    }
  }

  /** Each scalar type has its own tag and width, and its bytes are those of the number, the lowest first
      and negative numbers in two's complement. */
  lemma WireBytes(v: Value)
    requires !v.Null? && !v.Custom?
    ensures (TagOf(v), |Packed(v)|)
         == match v
            case Uint8(_) => (UINT8, 1)
            case Int8(_) => (INT8, 1)
            case Uint16(_) => (UINT16, 2)
            case Int16(_) => (INT16, 2)
            case Uint32(_) => (UINT32, 4)
            case Int32(_) => (INT32, 4)
            case Uint64(_) => (UINT64, 8)
            case Int64(_) => (INT64, 8)
            case Real32(_) => (REAL32, 4)
            case Real64(_) => (REAL64, 8)
            case _ => (UNKNOWN, 0)
    ensures forall i :: 0 <= i < |Packed(v)| ==> Packed(v)[i] == ByteOf(Number(v), i)
  {
    hide Image, LittleEndian, ByteOf, Pow256;
    forall i | 0 <= i < Width(TagOf(v))
      ensures Packed(v)[i] == ByteOf(Number(v), i)
    {
      LittleEndianAt(Image(v), Width(TagOf(v)), i);
      BytesModulo(Number(v), Width(TagOf(v)), i);
      ImageIsNumber(v);
    }
  }

  lemma ImageIsNumber(v: Value)
    ensures Image(v) == if v.Custom? then 0 else Wrap(Number(v), Width(TagOf(v)))
  {
    hide Pow256;
  }

  // ---------------------------------------------------------------- the plain protocol

  /** `get_mav_param_type` with `get_4_float_bytes`, which aborts unless the value is one of the two
      types it can read. */
  function Packed4(v: Value): Option<(Tag, seq<byte>)> {
    match v
    case Real32(bits) => Some((REAL32, LittleEndian(bits, 4)))
    case Int32(n) => Some((INT32, LittleEndian(Image(v), 4)))
    case _ => None
  }

  /** `set_from_mavlink_param_value`: both 32-bit integer tags give a signed value. */
  function Unpacked4(tag: Tag, bytes: seq<byte>): Value
    requires |bytes| == 4
  {
    FromLittleEndianFits(bytes);
    Widths();
    if tag == UINT32 || tag == INT32 then Int32(Unwrap(FromLittleEndian(bytes), 4))
    else if tag == REAL32 then Real32(FromLittleEndian(bytes))
    else Null
  }

  /** The plain protocol carries a value exactly if it is a float or a signed 32-bit integer. */
  lemma Packing4RoundTrip(v: Value)
    ensures Packed4(v).Some? <==> v.Real32? || v.Int32?
    ensures Packed4(v).Some? ==> |Packed4(v).value.1| == 4
    ensures Packed4(v).Some? ==> Unpacked4(Packed4(v).value.0, Packed4(v).value.1) == v
  {
    Widths();
    if Packed4(v).Some? {
      LittleEndianRoundTrip(Image(v), 4);
    }
  }

  /** A plain reply: both 32-bit integer types give a signed number, a float its bits, anything else an
      empty value. */
  lemma PlainReplies(tag: Tag, n: int32, bits: uint32)
    ensures tag in {INT32, UINT32} ==> Unpacked4(tag, LittleEndian(Image(Int32(n)), 4)) == Int32(n)
    ensures Unpacked4(REAL32, LittleEndian(bits, 4)) == Real32(bits)
    ensures tag !in {INT32, UINT32, REAL32} ==> Unpacked4(tag, LittleEndian(bits, 4)) == Null
  {
    hide LittleEndian, FromLittleEndian;
    Widths();
    LittleEndianRoundTrip(Image(Int32(n)), 4);
    LittleEndianRoundTrip(bits, 4);
  }
}
