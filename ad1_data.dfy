/**
 * The AD1 sample as the acquisition job decodes it: three little-endian bytes
 * read from the HY3131's AD1 data registers, assembled into a 24-bit
 * two's-complement value (bit 23 is the sign) and sign-extended to a signed
 * 32-bit C int.  Bytes are bv8 (C uint8_t); the assembled word is bv32 (the
 * C int the shifts and ORs are done in).
 */
module Ad1Data {

  /** Bit 23, the sign bit of the 24-bit sample. */
  const SignBit24: bv32 := 0x80_0000
  /** The bits ORed in to widen a negative 24-bit value to 32 bits. */
  const ExtensionBits: bv32 := 0xFF00_0000

  /** The three data bytes placed at bits 16-23, 8-15 and 0-7 of a 32-bit word. */
  function Assemble24(b0: bv8, b1: bv8, b2: bv8): bv32 {
    ((b2 as bv32) << 16) | ((b1 as bv32) << 8) | (b0 as bv32)
  }

  /** Sets bits 24-31 when bit 23, the sample's sign bit, is set. */
  function SignExtend24(w: bv32): bv32 {
    if w & SignBit24 != 0 then w | ExtensionBits else w
  }

  /** The value a 32-bit word has when read as a two's-complement int32_t. */
  function Int32(w: bv32): int {
    if w < 0x8000_0000 then w as int else w as int - 0x1_0000_0000
  }

  /** The unsigned value the three bytes spell, low byte first. */
  function Unsigned24(b0: bv8, b1: bv8, b2: bv8): int {
    (b2 as int) * 0x1_0000 + (b1 as int) * 0x100 + b0 as int
  }

  /**
   * The value `val` that acq_handle_job_acquisition hands to the mode handler
   * for the AD1 data bytes b0, b1, b2: the 24-bit two's-complement number whose
   * sign is the top bit of b2.
   */
  function DecodeAd1(b0: bv8, b1: bv8, b2: bv8): (v: int)
    ensures v == if b2 < 0x80 then Unsigned24(b0, b1, b2) else Unsigned24(b0, b1, b2) - 0x100_0000
    ensures -0x80_0000 <= v < 0x80_0000
    ensures v < 0 <==> b2 >= 0x80
  {
    DecodeValue(b0, b1, b2);
    Unsigned24Range(b0, b1, b2);
    Int32(SignExtend24(Assemble24(b0, b1, b2)))
  }

  /**
   * The bytes the chip stores for a 24-bit two's-complement sample v: the
   * inverse of DecodeAd1, used to state that the decoding loses nothing.
   */
  function EncodeAd1(v: int): (b: (bv8, bv8, bv8))
    requires -0x80_0000 <= v < 0x80_0000
    ensures DecodeAd1(b.0, b.1, b.2) == v
  {
    var u := if v < 0 then v + 0x100_0000 else v;
    EncodeDigits(u)
  }

  /** Decoding then re-encoding gives back the bytes that were read. */
  lemma EncodeDecode(b0: bv8, b1: bv8, b2: bv8)
    ensures EncodeAd1(DecodeAd1(b0, b1, b2)) == (b0, b1, b2)
  {
    EncodeSample(b0, b1, b2, DecodeAd1(b0, b1, b2));
  }

  lemma EncodeSample(b0: bv8, b1: bv8, b2: bv8, v: int)
    requires -0x80_0000 <= v < 0x80_0000
    requires v == if b2 < 0x80 then Unsigned24(b0, b1, b2) else Unsigned24(b0, b1, b2) - 0x100_0000
    ensures EncodeAd1(v) == (b0, b1, b2)
  {
    var u := if v < 0 then v + 0x100_0000 else v;
    var e := EncodeDigits(u);
    assert EncodeAd1(v) == e;
    DigitsOfSample(b0, b1, b2, v);
    ByteInjective(e.0, b0);
    ByteInjective(e.1, b1);
    ByteInjective(e.2, b2);
  }

  /** The digits EncodeAd1 takes from a decoded sample, as numbers, are the bytes it was decoded from. */
  lemma DigitsOfSample(b0: bv8, b1: bv8, b2: bv8, v: int)
    requires -0x80_0000 <= v < 0x80_0000
    requires v == if b2 < 0x80 then Unsigned24(b0, b1, b2) else Unsigned24(b0, b1, b2) - 0x100_0000
    ensures var u := if v < 0 then v + 0x100_0000 else v;
            && EncodeDigits(u).0 as int == b0 as int
            && EncodeDigits(u).1 as int == b1 as int
            && EncodeDigits(u).2 as int == b2 as int
  {
    ByteIdentity(b0);
    ByteIdentity(b1);
    ByteIdentity(b2);
    SampleDigits(b0 as int, b1 as int, b2 as int, v);
  }

  /** The digits EncodeAd1 computes for a decoded sample are the digits it was decoded from. */
  lemma SampleDigits(n0: int, n1: int, n2: int, v: int)
    requires 0 <= n0 < 0x100 && 0 <= n1 < 0x100 && 0 <= n2 < 0x100
    requires v == if n2 < 0x80 then n2 * 0x1_0000 + n1 * 0x100 + n0 else n2 * 0x1_0000 + n1 * 0x100 + n0 - 0x100_0000
    ensures var u := if v < 0 then v + 0x100_0000 else v;
            u % 0x100 == n0 && u / 0x100 % 0x100 == n1 && u / 0x1_0000 == n2
  {
    Digits(n0, n1, n2);
  }

  /** The base-256 digits of a 24-bit unsigned number, low digit first. */
  function EncodeDigits(u: int): (b: (bv8, bv8, bv8))
    requires 0 <= u < 0x100_0000
    ensures b.0 as int == u % 0x100 && b.1 as int == u / 0x100 % 0x100 && b.2 as int == u / 0x1_0000
    ensures Unsigned24(b.0, b.1, b.2) == u
  {
    Split(u);
    (ToByte(u % 0x100), ToByte(u / 0x100 % 0x100), ToByte(u / 0x1_0000))
  }

  // ---- bit-level steps, each small enough for the solver on its own ----

  /** A 24-bit number is the sum of its base-256 digits. */
  lemma Split(u: int)
    requires 0 <= u < 0x100_0000
    ensures 0 <= u % 0x100 < 0x100 && 0 <= u / 0x100 % 0x100 < 0x100 && 0 <= u / 0x1_0000 < 0x100
    ensures u / 0x1_0000 < 0x80 <==> u < 0x80_0000
    ensures u == (u / 0x1_0000) * 0x1_0000 + (u / 0x100 % 0x100) * 0x100 + u % 0x100
  {
    assert u == (u / 0x100) * 0x100 + u % 0x100;
    assert u / 0x100 == (u / 0x1_0000) * 0x100 + u / 0x100 % 0x100;
  }

  /** Base-256 digits of a three-digit number. */
  lemma Digits(d0: int, d1: int, d2: int)
    requires 0 <= d0 < 0x100 && 0 <= d1 < 0x100 && 0 <= d2 < 0x100
    ensures (d2 * 0x1_0000 + d1 * 0x100 + d0) % 0x100 == d0
    ensures (d2 * 0x1_0000 + d1 * 0x100 + d0) / 0x100 % 0x100 == d1
    ensures (d2 * 0x1_0000 + d1 * 0x100 + d0) / 0x1_0000 == d2
  {
    var n := d2 * 0x1_0000 + d1 * 0x100 + d0;
    assert n == (d2 * 0x100 + d1) * 0x100 + d0;
    assert n / 0x100 == d2 * 0x100 + d1;
    assert n == d2 * 0x1_0000 + (d1 * 0x100 + d0);
  }

  /** The byte whose value is n, built bit by bit (a C `(uint8_t)n` for an n that fits). */
  function ToByte(n: nat): (b: bv8)
    requires n < 0x100
    ensures b as int == n
  {
    if n == 0 then 0 else (ToByte(n / 2) << 1) | (if n % 2 == 1 then 1 else 0)
  }

  lemma ByteInjective(x: bv8, y: bv8)
    requires x as int == y as int
    ensures x == y
  {}

  lemma Unsigned24Range(b0: bv8, b1: bv8, b2: bv8)
    ensures 0 <= Unsigned24(b0, b1, b2) < 0x100_0000
  {
    ByteIdentity(b0);
    ByteIdentity(b1);
    ByteIdentity(b2);
  }

  lemma ByteIdentity(b: bv8)
    ensures 0 <= b as int < 0x100
    ensures b < 0x80 <==> b as int < 0x80
  {}

  lemma ByteValue(hi: bv32, lo: bv32)
    requires hi < 0x100 && lo < 0x100
    ensures (hi * 0x100 + lo) as int == hi as int * 0x100 + lo as int
  {}

  lemma WordValue(hi: bv32, lo: bv32)
    requires hi < 0x100 && lo < 0x1_0000
    ensures (hi * 0x1_0000 + lo) as int == hi as int * 0x1_0000 + lo as int
  {}

  /** The shifted bytes occupy disjoint bit ranges, so OR is addition; bit 23 is b2's top bit. */
  lemma AssembleBits(b0: bv8, b1: bv8, b2: bv8)
    ensures Assemble24(b0, b1, b2) == (b2 as bv32) * 0x1_0000 + ((b1 as bv32) * 0x100 + (b0 as bv32))
    ensures (Assemble24(b0, b1, b2) & SignBit24 != 0) == (b2 >= 0x80)
  {}

  lemma Widen(b: bv8)
    ensures (b as bv32) as int == b as int && b as bv32 < 0x100
  {}

  /** The assembled word, read as a number, is the bytes' unsigned value. */
  lemma AssembleValue(b0: bv8, b1: bv8, b2: bv8)
    ensures Assemble24(b0, b1, b2) as int == Unsigned24(b0, b1, b2)
  {
    AssembleBits(b0, b1, b2);
    Widen(b0);
    Widen(b1);
    Widen(b2);
    ByteValue(b1 as bv32, b0 as bv32);
    WordValue(b2 as bv32, (b1 as bv32) * 0x100 + (b0 as bv32));
  }

  lemma DecodeValue(b0: bv8, b1: bv8, b2: bv8)
    ensures Int32(SignExtend24(Assemble24(b0, b1, b2))) ==
            if b2 < 0x80 then Unsigned24(b0, b1, b2) else Unsigned24(b0, b1, b2) - 0x100_0000
  {
    var w := Assemble24(b0, b1, b2);
    AssembleValue(b0, b1, b2);
    AssembleBits(b0, b1, b2);
    Below24(w, Unsigned24(b0, b1, b2));
    if b2 < 0x80 {
      PlainCase(w, Unsigned24(b0, b1, b2));
    } else {
      SignCase(w, Unsigned24(b0, b1, b2));
    }
  }

  lemma Below24(w: bv32, n: int)
    requires w as int == n && n < 0x100_0000
    ensures w < 0x100_0000
  {}

  lemma PlainCase(w: bv32, n: int)
    requires w as int == n && w < 0x100_0000 && w & SignBit24 == 0
    ensures Int32(SignExtend24(w)) == n
  {}

  lemma SignCase(w: bv32, n: int)
    requires w as int == n && w < 0x100_0000 && w & SignBit24 != 0
    ensures Int32(SignExtend24(w)) == n - 0x100_0000
  {
    ExtendBits(w);
    ExtendSum(w);
  }

  /** ORing the extension bits into a 24-bit word adds them, and sets the int32 sign bit. */
  lemma ExtendBits(w: bv32)
    requires w < 0x100_0000
    ensures w | ExtensionBits == w + ExtensionBits
    ensures w + ExtensionBits >= 0x8000_0000
  {}

  lemma ExtendSum(w: bv32)
    requires w < 0x100_0000
    ensures (w + 0xFF00_0000) as int == w as int + 0xFF00_0000
  {}

  /** The two worked examples: [0x34,0x12,0x00] and [0x00,0x00,0x80]. */
  lemma DecodeExamples()
    ensures DecodeAd1(0x34, 0x12, 0x00) == 0x1234
    ensures DecodeAd1(0x00, 0x00, 0x80) == -8388608
    ensures DecodeAd1(0xFF, 0xFF, 0xFF) == -1
  {}
}
