/**
 * Fixed-width integers and the part of the SCALE codec the model needs
 * concretely: a `u32` is encoded as its four bytes, least significant first.
 * Encodings of the generic component types are supplied by the caller
 * (see `Merkle.Codec`).
 */
module Scale {

  newtype u8 = x: int | 0 <= x < 0x100
  newtype u32 = x: int | 0 <= x < 0x1_0000_0000

  type Bytes = seq<u8>

  /** SCALE encoding of a `u32`: four bytes, little-endian. */
  function EncodeU32(x: u32): (r: Bytes)
    ensures |r| == 4
    ensures r[0] as int + 0x100 * r[1] as int + 0x1_0000 * r[2] as int + 0x100_0000 * r[3] as int == x as int
  {
    var q1 := x as int / 0x100;
    var q2 := q1 / 0x100;
    var q3 := q2 / 0x100;
    DivideByByte(x as int);
    DivideByByte(q1);
    DivideByByte(q2);
    [(x as int % 0x100) as u8, (q1 % 0x100) as u8, (q2 % 0x100) as u8, q3 as u8]
  }

  /** Splitting off the lowest base-256 digit of a natural number. */
  lemma DivideByByte(n: int)
    requires n >= 0
    ensures n == n % 0x100 + 0x100 * (n / 0x100)
    ensures 0 <= n % 0x100 < 0x100 && 0 <= n / 0x100 <= n
    ensures n < 0x1_0000_0000 ==> n / 0x100 < 0x100_0000
    ensures n < 0x100_0000 ==> n / 0x100 < 0x1_0000
    ensures n < 0x1_0000 ==> n / 0x100 < 0x100
  {
  }

  /** Reads back a little-endian `u32` from four bytes. */
  function DecodeU32(b: Bytes): (x: u32)
    requires |b| == 4
    ensures EncodeU32(x) == b
  {
    var n := b[0] as int + 0x100 * b[1] as int + 0x1_0000 * b[2] as int + 0x100_0000 * b[3] as int;
    LittleEndianDigits(b[0] as int, b[1] as int, b[2] as int, b[3] as int);
    n as u32
  }

  /** The four base-256 digits of a number below 2^32 are determined by it. */
  lemma LittleEndianDigits(d0: int, d1: int, d2: int, d3: int)
    requires 0 <= d0 < 0x100 && 0 <= d1 < 0x100 && 0 <= d2 < 0x100 && 0 <= d3 < 0x100
    ensures var n := d0 + 0x100 * d1 + 0x1_0000 * d2 + 0x100_0000 * d3;
      n % 0x100 == d0 && n / 0x100 % 0x100 == d1 && n / 0x100 / 0x100 % 0x100 == d2 && n / 0x100 / 0x100 / 0x100 == d3
  {
    var n := d0 + 0x100 * d1 + 0x1_0000 * d2 + 0x100_0000 * d3;
    var q1 := d1 + 0x100 * d2 + 0x1_0000 * d3;
    var q2 := d2 + 0x100 * d3;
    assert n == d0 + 0x100 * q1;
    assert n / 0x100 == q1 && n % 0x100 == d0;
    assert q1 == d1 + 0x100 * q2;
    assert q1 / 0x100 == q2 && q1 % 0x100 == d1;
    assert q2 / 0x100 == d3 && q2 % 0x100 == d2;
  }

  /** Decoding inverts encoding, so the encoding is injective. */
  lemma DecodeEncodeU32(x: u32)
    ensures DecodeU32(EncodeU32(x)) == x
  {
    var b := EncodeU32(x);
    assert EncodeU32(DecodeU32(b)) == b;
  }
}
