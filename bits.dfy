/**
  Facts about Rust's `u8` and `u32` bit operations, modelled as Dafny's `bv8`
  and `bv32`, in terms of integer arithmetic. A left shift of a `bv8` drops
  the bits shifted out, as `u8 << n` does in Rust.
 */
module Bits {

  /** A right shift of a `u8` is a division by a power of two. */
  lemma ShiftRight2(x: bv8)
    ensures (x >> 2) as int == x as int / 4
  {
  }

  lemma ShiftRight4(x: bv8)
    ensures (x >> 4) as int == x as int / 16
  {
  }

  lemma ShiftRight6(x: bv8)
    ensures (x >> 6) as int == x as int / 64
  {
  }

  /** Masking the low bits of a `u8` is a remainder by a power of two. */
  lemma LowBits2(x: bv8)
    ensures (x & 0x03) as int == x as int % 4
  {
  }

  lemma LowBits4(x: bv8)
    ensures (x & 0x0f) as int == x as int % 16
  {
  }

  lemma LowBits6(x: bv8)
    ensures (x & 0x3f) as int == x as int % 64
  {
  }

  /** Bytes with the same value are equal. */
  lemma SameByte(x: bv8, y: bv8)
    requires x as int == y as int
    ensures x == y
  {
  }

  /** Widening a `u8` to `u32` keeps its value. */
  lemma Widen(x: bv8)
    ensures (x as bv32) as int == x as int
  {
  }

  /** Two bit fields joined by `|` that do not overlap: a 2-bit high part and a 4-bit low part. */
  lemma Join24(hi: bv8, lo: bv8)
    requires hi < 4 && lo < 16
    ensures ((hi << 4) | lo) as int == hi as int * 16 + lo as int
  {
  }

  /** Two bit fields joined by `|` that do not overlap: a 4-bit high part and a 2-bit low part. */
  lemma Join42(hi: bv8, lo: bv8)
    requires hi < 16 && lo < 4
    ensures ((hi << 2) | lo) as int == hi as int * 4 + lo as int
  {
  }

  /**
    The low six bits of an 8-bit left shift keep only the low bits of the
    shifted byte; the bits that `u8 << n` drops never reach them.
   */
  lemma ShiftLeftLowSix(b0: bv8, b1: bv8)
    ensures (((b0 << 4) | (b1 >> 4)) & 0x3f) == ((b0 & 0x03) << 4) | (b1 >> 4)
    ensures ((b0 << 4) & 0x3f) == (b0 & 0x03) << 4
    ensures ((b1 << 2) & 0x3f) == (b1 & 0x0f) << 2
    ensures (b0 >> 2) & 0x3f == b0 >> 2
  {
  }

  /** The four 6-bit fields of a 24-bit value held in a `u32`, in terms of its three low bytes. */
  lemma Fields24(v: bv32, b0: bv8, b1: bv8, b2: bv8)
    requires v >> 24 == 0
    requires (v >> 16) & 0xff == b0 as bv32
    requires (v >> 8) & 0xff == b1 as bv32
    requires v & 0xff == b2 as bv32
    ensures (v >> 18) & 0x3f == (b0 >> 2) as bv32
    ensures (v >> 12) & 0x3f == (((b0 & 0x03) << 4) | (b1 >> 4)) as bv32
    ensures (v >> 6) & 0x3f == (((b1 & 0x0f) << 2) | (b2 >> 6)) as bv32
    ensures (v >> 0) & 0x3f == (b2 & 0x3f) as bv32
  {
  }

  /** The same four fields as numbers. */
  lemma FieldValues24(v: bv32, b0: bv8, b1: bv8, b2: bv8)
    requires v >> 24 == 0
    requires (v >> 16) & 0xff == b0 as bv32
    requires (v >> 8) & 0xff == b1 as bv32
    requires v & 0xff == b2 as bv32
    ensures ((v >> 18) & 0x3f) as int == b0 as int / 4
    ensures ((v >> 12) & 0x3f) as int == b0 as int % 4 * 16 + b1 as int / 16
    ensures ((v >> 6) & 0x3f) as int == b1 as int % 16 * 4 + b2 as int / 64
    ensures ((v >> 0) & 0x3f) as int == b2 as int % 64
  {
    Fields24(v, b0, b1, b2);
    var i1, i2 := ((b0 & 0x03) << 4) | (b1 >> 4), ((b1 & 0x0f) << 2) | (b2 >> 6);
    Widen(b0 >> 2);
    Widen(i1);
    Widen(i2);
    Widen(b2 & 0x3f);
    ShiftRight2(b0);
    ShiftRight4(b1);
    ShiftRight6(b2);
    LowBits2(b0);
    LowBits4(b1);
    LowBits6(b2);
    Join24(b0 & 0x03, b1 >> 4);
    Join42(b1 & 0x0f, b2 >> 6);
  }
}
