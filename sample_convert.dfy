/** ConvertToFloatSample: the mapping from one raw sample to the value handed
    to the Vorbis analysis buffer. Integers are decoded exactly (little-endian,
    two's complement where signed) and scaled in `real`; the two float cases
    keep their raw bytes, because their value is an IEEE reinterpretation. */
module SampleConvert {
  import opened Sound

  datatype Sample =
    | Scaled(x: real)                  // an integer sample divided by the code's divisor
    | Float32Bits(bits: seq<bv8>)      // float32 passthrough: these four bytes read as an IEEE single
    | NarrowedFloat64(bits: seq<bv8>)  // float64 narrowed: these eight bytes read as an IEEE double, rounded to single

  /** The value of the single-precision literal 2147483647.f: the nearest
      float to 2^31 - 1 is 2^31 itself. */
  const DIVISOR_32: real := 2147483648.0

  function Pow256(n: nat): (p: nat)
    ensures p >= 1
  {
    if n == 0 then 1 else 256 * Pow256(n - 1)
  }

  /** Little-endian unsigned value of the bytes. */
  function UInt(b: seq<bv8>): (u: nat)
    ensures u < Pow256(|b|)
  {
    if b == [] then 0 else b[0] as nat + 256 * UInt(b[1..])
  }

  /** Little-endian two's-complement value of the bytes. */
  function SInt(b: seq<bv8>): (v: int)
    requires |b| > 0
    ensures -(Pow256(|b|) / 2) <= v < Pow256(|b|) / 2
  {
    var u := UInt(b);
    var h := Pow256(|b|) / 2;
    assert Pow256(|b|) == 2 * h by {
      assert Pow256(|b|) == 256 * Pow256(|b| - 1);
    }
    if u >= Pow256(|b|) / 2 then u - Pow256(|b|) else u
  }

  /** A `char` (signed here) converted to int. */
  function Int8(b: bv8): (v: int)
    ensures -128 <= v < 128
  {
    if b < 0x80 then b as int else b as int - 256
  }

  /** Promotion of a signed `char` to a 32-bit int, as a bit pattern. */
  function SignExtend(b: bv8): bv32
  {
    if b < 0x80 then b as bv32 else (b as bv32) | 0xFFFF_FF00
  }

  /** The four bytes of a 32-bit pattern, least significant first. */
  function Bytes32(x: bv32): seq<bv8>
  {
    [(x & 0xFF) as bv8, ((x >> 8) & 0xFF) as bv8, ((x >> 16) & 0xFF) as bv8, ((x >> 24) & 0xFF) as bv8]
  }

  /** A 32-bit int bit pattern read as a two's-complement integer. */
  function AsInt32(x: bv32): int
  {
    SInt(Bytes32(x))
  }

  /** The 16-bit signed value as the code rebuilds it from the shift and
      the or on 32-bit ints: int8(hi) * 256 + uint8(lo). */
  function Signed16AsWritten(lo: bv8, hi: bv8): (v: int)
    ensures v == Int8(hi) * 256 + lo as int
    ensures -32768 <= v <= 32767
  {
    ShiftOrValue(lo, hi);
    AsInt32(Rebuilt16(lo, hi))
  }

  /** The 32-bit pattern of the shift-left-by-8 of the promoted p[1], or-ed
      with the low byte of the promoted p[0]: hi in the second byte, lo in
      the first and the sign of hi filling the upper half. */
  function Rebuilt16(lo: bv8, hi: bv8): (x: bv32)
    ensures x == (if hi < 0x80 then 0 else 0xFFFF_0000) | ((hi as bv32) << 8) | (lo as bv32)
  {
    assert SignExtend(lo) & 0xFF == lo as bv32;
    (SignExtend(hi) << 8) | (SignExtend(lo) & 0xFF)
  }

  /** The number of bytes the dispatch dereferences for this format
      (0 for the combinations that fall through to the default). */
  function Width(info: SoundInfo): nat
  {
    if info.isSigned == 0 && info.bitsize in {8, 16, 32} then info.bitsize / 8
    else if info.isSigned == 1 && info.bitsize in {8, 16, 32} then info.bitsize / 8
    else if info.isSigned == 2 && info.bitsize in {32, 64} then info.bitsize / 8
    else 0
  }

  /** ConvertToFloatSample, case by case as written. Only the float formats
      keep their bytes; every combination the dispatch does not handle
      falls through to 0. */
  function Convert(p: seq<bv8>, info: SoundInfo): (r: Sample)
    requires |p| >= Width(info)
    ensures !r.Scaled? <==> info.isSigned == 2 && info.bitsize in {32, 64}
    ensures !r.Scaled? ==> |r.bits| == Width(info) && r.bits == p[..Width(info)]
    ensures Width(info) == 0 ==> r == Scaled(0.0)
  {
    if info.isSigned == 0 && info.bitsize == 8 then Scaled(UInt(p[..1]) as real / 128.0 - 1.0)
    else if info.isSigned == 0 && info.bitsize == 16 then Scaled(UInt(p[..2]) as real / 32768.0 - 1.0)
    else if info.isSigned == 0 && info.bitsize == 32 then Scaled(UInt(p[..4]) as real / DIVISOR_32 - 1.0)
    else if info.isSigned == 1 && info.bitsize == 8 then Scaled(SInt(p[..1]) as real / 128.0)
    else if info.isSigned == 1 && info.bitsize == 16 then Scaled(Signed16AsWritten(p[0], p[1]) as real / 32768.0)
    else if info.isSigned == 1 && info.bitsize == 32 then Scaled(SInt(p[..4]) as real / DIVISOR_32 - 1.0)
    else if info.isSigned == 2 && info.bitsize == 32 then Float32Bits(p[..4])
    else if info.isSigned == 2 && info.bitsize == 64 then NarrowedFloat64(p[..8])
    else Scaled(0.0)
  }

  /** The hand-built 16-bit value is the two's-complement little-endian
      value of the two bytes: int8(hi) * 256 + uint8(lo), in [-32768, 32767]. */
  lemma Signed16Decoding(lo: bv8, hi: bv8)
    ensures Signed16AsWritten(lo, hi) == Int8(hi) * 256 + lo as int
    ensures Signed16AsWritten(lo, hi) == SInt([lo, hi])
    ensures -32768 <= Signed16AsWritten(lo, hi) <= 32767
  {
    TwoByteValue(lo, hi);
  }

  /** The shift-and-or on 32-bit patterns computes int8(hi) * 256 + lo. */
  lemma ShiftOrValue(lo: bv8, hi: bv8)
    ensures AsInt32(Rebuilt16(lo, hi)) == Int8(hi) * 256 + lo as int
  {
    var top: bv32 := if hi < 0x80 then 0 else 0xFFFF_0000;
    var e: bv8 := if hi < 0x80 then 0 else 0xFF;
    PatternBytes(lo, hi, top);
    SignFilledValue(lo, hi, e);
  }

  /** Four little-endian bytes lo, hi, e, e, with e the sign fill of hi. */
  lemma SignFilledValue(lo: bv8, hi: bv8, e: bv8)
    requires e == if hi < 0x80 then 0 else 0xFF
    ensures SInt([lo, hi, e, e]) == Int8(hi) * 256 + lo as int
  {
    var b := [lo, hi, e, e];
    assert b[1..] == [hi, e, e] && [hi, e, e][1..] == [e, e] && [e, e][1..] == [e] && [e][1..] == [];
    assert UInt([e]) == e as int;
    assert UInt([e, e]) == e as int + 256 * (e as int);
    assert UInt([hi, e, e]) == hi as int + 256 * (e as int + 256 * (e as int));
    assert UInt(b) == lo as int + 256 * (hi as int + 256 * (e as int + 256 * (e as int)));
    assert Pow256(4) == 0x1_0000_0000;
  }

  lemma PatternBytes(lo: bv8, hi: bv8, top: bv32)
    requires top == 0 || top == 0xFFFF_0000
    ensures var e: bv8 := if top == 0 then 0 else 0xFF;
      Bytes32(top | ((hi as bv32) << 8) | (lo as bv32)) == [lo, hi, e, e]
  {
    ByteOfPattern0(lo, hi, top);
    ByteOfPattern1(lo, hi, top);
    ByteOfPattern2(lo, hi, top);
    ByteOfPattern3(lo, hi, top);
  }

  lemma ByteOfPattern0(lo: bv8, hi: bv8, top: bv32)
    requires top == 0 || top == 0xFFFF_0000
    ensures ((top | ((hi as bv32) << 8) | (lo as bv32)) & 0xFF) as bv8 == lo
  {}

  lemma ByteOfPattern1(lo: bv8, hi: bv8, top: bv32)
    requires top == 0 || top == 0xFFFF_0000
    ensures (((top | ((hi as bv32) << 8) | (lo as bv32)) >> 8) & 0xFF) as bv8 == hi
  {}

  lemma ByteOfPattern2(lo: bv8, hi: bv8, top: bv32)
    requires top == 0 || top == 0xFFFF_0000
    ensures (((top | ((hi as bv32) << 8) | (lo as bv32)) >> 16) & 0xFF) as bv8 == if top == 0 then 0 else 0xFF
  {}

  lemma ByteOfPattern3(lo: bv8, hi: bv8, top: bv32)
    requires top == 0 || top == 0xFFFF_0000
    ensures (((top | ((hi as bv32) << 8) | (lo as bv32)) >> 24) & 0xFF) as bv8 == if top == 0 then 0 else 0xFF
  {}

  /** Two's complement of two little-endian bytes is int8(hi) * 256 + lo. */
  lemma TwoByteValue(lo: bv8, hi: bv8)
    ensures SInt([lo, hi]) == Int8(hi) * 256 + lo as int
  {
    assert [lo, hi][1..] == [hi];
    assert [hi][1..] == [];
    assert UInt([lo, hi]) == lo as int + 256 * (hi as int);
    assert Pow256(2) == 65536;
  }

  /** Every integer format lands in [-1, 1), except signed 32-bit, whose
      extra "- 1" puts it in [-2, 0); every combination the dispatch does not
      handle is silence. */
  lemma ConvertRange(p: seq<bv8>, info: SoundInfo)
    requires |p| >= Width(info)
    ensures info.isSigned == 0 && info.bitsize in {8, 16, 32} ==>
      Convert(p, info).Scaled? && -1.0 <= Convert(p, info).x < 1.0
    ensures info.isSigned == 1 && info.bitsize in {8, 16} ==>
      Convert(p, info).Scaled? && -1.0 <= Convert(p, info).x < 1.0
    ensures info.isSigned == 1 && info.bitsize == 32 ==>
      Convert(p, info).Scaled? && -2.0 <= Convert(p, info).x < 0.0
    ensures Width(info) == 0 <==> Convert(p, info) == Scaled(0.0) && !(info.isSigned in {0, 1} && info.bitsize in {8, 16, 32})
  {
    assert Pow256(1) == 256;
    assert Pow256(2) == 65536;
    assert Pow256(4) == 0x1_0000_0000;
    if info.isSigned == 1 && info.bitsize == 16 {
      Signed16Decoding(p[0], p[1]);
    }
  }

  /** The boundary values: unsigned 8-bit 0 and 255, signed 16-bit 0x8000,
      0x7FFF and 0, and signed 32-bit 0, which the extra "- 1" sends to -1. */
  lemma ConvertBoundaries()
    ensures Convert([0x00], SoundInfo(1, 44100, 8, 0)) == Scaled(-1.0)
    ensures Convert([0xFF], SoundInfo(1, 44100, 8, 0)) == Scaled(127.0 / 128.0)
    ensures Convert([0x00, 0x80], SoundInfo(1, 44100, 16, 1)) == Scaled(-1.0)
    ensures Convert([0xFF, 0x7F], SoundInfo(1, 44100, 16, 1)) == Scaled(32767.0 / 32768.0)
    ensures Convert([0x00, 0x00], SoundInfo(1, 44100, 16, 1)) == Scaled(0.0)
    ensures Convert([0x00, 0x00, 0x00, 0x00], SoundInfo(1, 44100, 32, 1)) == Scaled(-1.0)
  {
    assert [0xFF as bv8][..1] == [0xFF];
    assert UInt([0xFF]) == 255;
    Signed16Decoding(0x00, 0x80);
    Signed16Decoding(0xFF, 0x7F);
    Signed16Decoding(0x00, 0x00);
    var z: seq<bv8> := [0x00, 0x00, 0x00, 0x00];
    assert z[..4] == z;
    assert z[1..] == [0, 0, 0] && [0 as bv8, 0, 0][1..] == [0, 0] && [0 as bv8, 0][1..] == [0];
    assert UInt(z) == 0;
  }
}
