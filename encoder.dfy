/**
  A model of the Base64 encoder of src/encode.rs. Bytes are `bv8` (Rust `u8`),
  the packed group of `read_u32` is a `bv32` (Rust `u32`), and a Rust mutable
  sub-slice `&mut output[lo..hi]` is the window `[lo, hi)` of an array.
  Every operation is proved against the reference encoding of RFC 4648 in
  module Rfc4648; the function Octets reads bytes as the octets it uses.
 */
module Encoder {
  import Rfc = Rfc4648
  import opened Bits

  /** Row 0 of BASE64_TABLE: "ABCDEFGHIJKLMNOP". */
  const TableRow0: seq<bv8> := [0x41, 0x42, 0x43, 0x44, 0x45, 0x46, 0x47, 0x48, 0x49, 0x4A, 0x4B, 0x4C, 0x4D, 0x4E, 0x4F, 0x50]

  /** Row 1 of BASE64_TABLE: "QRSTUVWXYZabcdef". */
  const TableRow1: seq<bv8> := [0x51, 0x52, 0x53, 0x54, 0x55, 0x56, 0x57, 0x58, 0x59, 0x5A, 0x61, 0x62, 0x63, 0x64, 0x65, 0x66]

  /** Row 2 of BASE64_TABLE: "ghijklmnopqrstuv". */
  const TableRow2: seq<bv8> := [0x67, 0x68, 0x69, 0x6A, 0x6B, 0x6C, 0x6D, 0x6E, 0x6F, 0x70, 0x71, 0x72, 0x73, 0x74, 0x75, 0x76]

  /** Row 3 of BASE64_TABLE: "wxyz0123456789+/". */
  const TableRow3: seq<bv8> := [0x77, 0x78, 0x79, 0x7A, 0x30, 0x31, 0x32, 0x33, 0x34, 0x35, 0x36, 0x37, 0x38, 0x39, 0x2B, 0x2F]

  /** BASE64_TABLE: the 64 characters of the standard alphabet, as ASCII bytes. */
  const Base64Table: seq<bv8> := TableRow0 + TableRow1 + TableRow2 + TableRow3

  /** PAD_BYTE, the ASCII byte of '='. */
  const PadByte: bv8 := 0x3D

  /** The masks LOW_SIX_BITS and LOW_SIX_BITS_U8 of encode_to_slice. */
  const LowSixBits: bv32 := 0x3f
  const LowSixBitsU8: bv8 := 0x3f

  /** The bytes of `s` as the octets of the reference encoding. */
  function Octets(s: seq<bv8>): seq<Rfc.Octet>
  {
    seq(|s|, i requires 0 <= i < |s| => s[i] as int)
  }

  // ---------------------------------------------------------------------
  // The alphabet

  lemma TableRow0At(j: nat)
    requires j < 16
    ensures TableRow0[j] as int == Rfc.Symbol(j)
  {
  }

  lemma TableRow1At(j: nat)
    requires j < 16
    ensures TableRow1[j] as int == Rfc.Symbol(16 + j)
  {
  }

  lemma TableRow2At(j: nat)
    requires j < 16
    ensures TableRow2[j] as int == Rfc.Symbol(32 + j)
  {
  }

  lemma TableRow3At(j: nat)
    requires j < 16
    ensures TableRow3[j] as int == Rfc.Symbol(48 + j)
  {
  }

  /** BASE64_TABLE is Table 1 of RFC 4648, and PAD_BYTE is its pad character. */
  lemma TableIsAlphabet(i: nat)
    requires i < 64
    ensures |Base64Table| == 64
    ensures Base64Table[i] as int == Rfc.Symbol(i)
    ensures PadByte as int == Rfc.PadSymbol
  {
    if i < 16 {
      TableRow0At(i);
    } else if i < 32 {
      TableRow1At(i - 16);
    } else if i < 48 {
      TableRow2At(i - 32);
    } else {
      TableRow3At(i - 48);
    }
  }

  // ---------------------------------------------------------------------
  // encode_size

  /**
    The length of the padded encoding of `inputLen` bytes: the smallest
    multiple of 4 whose quanta of 4 characters hold 3 bytes each.
   */
  function EncodeSize(inputLen: nat): (size: nat)
    ensures size % 4 == 0
    ensures 3 * (size / 4) >= inputLen
    ensures size == 0 || 3 * (size / 4 - 1) < inputLen
  {
    var rem := inputLen % 3;
    var inputChunksComplete := inputLen / 3;
    var completeOutputChunks := inputChunksComplete * 4;
    if rem > 0 then completeOutputChunks + 4 else completeOutputChunks
  }

  /** EncodeSize(n) is the length of the reference encoding of every n-octet input. */
  lemma EncodeSizeIsEncodedLength(s: seq<Rfc.Octet>)
    ensures EncodeSize(|s|) == |Rfc.Encode(s)|
  {
    Rfc.EncodeLength(s);
    EncodeSizeIsCeiling(|s|);
  }

  /** EncodeSize(n) is 4 * ceil(n / 3). */
  lemma EncodeSizeIsCeiling(n: nat)
    ensures EncodeSize(n) == 4 * ((n + 2) / 3)
  {
    var q, r := n / 3, n % 3;
    assert n == 3 * q + r;
    if r == 0 {
      assert (n + 2) / 3 == q;
    } else {
      assert (n + 2) / 3 == q + 1;
    }
  }

  // ---------------------------------------------------------------------
  // read_u32

  /** u32::from_be_bytes: the four bytes of `b`, most significant first. */
  function FromBeBytes(b: seq<bv8>): bv32
    requires |b| == 4
  {
    ((b[0] as bv32) << 24) | ((b[1] as bv32) << 16) | ((b[2] as bv32) << 8) | (b[3] as bv32)
  }

  /** The first three bytes of `s` as a big-endian 24-bit number in a `u32`. */
  function ReadU32(s: seq<bv8>): (r: bv32)
    requires |s| >= 3
    ensures r >> 24 == 0
    ensures (r >> 16) & 0xff == s[0] as bv32
    ensures (r >> 8) & 0xff == s[1] as bv32
    ensures r & 0xff == s[2] as bv32
  {
    var temp := [0, s[0], s[1], s[2]];
    FromBeBytes(temp)
  }


  // ---------------------------------------------------------------------
  // The table lookups of encode_to_slice

  /** BASE64_TABLE[i]: the byte of the character Table 1 gives for the 6-bit value `i`. */
  method Lookup(i: int) returns (c: bv8)
    requires 0 <= i < 64
    ensures c as int == Rfc.Symbol(i)
  {
    TableIsAlphabet(i);
    c := Base64Table[i];
  }

  /** The four table indices of the main loop, computed with LOW_SIX_BITS, as numbers. */
  lemma ChunkIndices(v: bv32, b0: bv8, b1: bv8, b2: bv8)
    requires v >> 24 == 0
    requires (v >> 16) & 0xff == b0 as bv32
    requires (v >> 8) & 0xff == b1 as bv32
    requires v & 0xff == b2 as bv32
    ensures ((v >> 18) & LowSixBits) as int == b0 as int / 4
    ensures ((v >> 12) & LowSixBits) as int == b0 as int % 4 * 16 + b1 as int / 16
    ensures ((v >> 6) & LowSixBits) as int == b1 as int % 16 * 4 + b2 as int / 64
    ensures ((v >> 0) & LowSixBits) as int == b2 as int % 64
  {
    FieldValues24(v, b0, b1, b2);
  }

  /** The table indices encode_to_slice computes for a final group of two bytes, as numbers. */
  lemma TwoByteTailIndices(b0: bv8, b1: bv8)
    ensures ((b0 >> 2) & LowSixBitsU8) as int == b0 as int / 4
    ensures (((b0 << 4) | (b1 >> 4)) & LowSixBitsU8) as int == b0 as int % 4 * 16 + b1 as int / 16
    ensures ((b1 << 2) & LowSixBitsU8) as int == b1 as int % 16 * 4
  {
    ShiftLeftLowSix(b0, b1);
    ShiftRight2(b0);
    ShiftRight4(b1);
    LowBits2(b0);
    LowBits4(b1);
    Join24(b0 & 0x03, b1 >> 4);
    Join42(b1 & 0x0f, 0);
  }

  /** The table indices encode_to_slice computes for a final group of one byte, as numbers. */
  lemma OneByteTailIndices(b0: bv8)
    ensures ((b0 >> 2) & LowSixBitsU8) as int == b0 as int / 4
    ensures ((b0 << 4) & LowSixBitsU8) as int == b0 as int % 4 * 16
  {
    ShiftLeftLowSix(b0, 0);
    ShiftRight2(b0);
    LowBits2(b0);
    Join24(b0 & 0x03, 0);
  }

  /**
    The 6-bit groups of an input group of 1 to 3 octets, as the shifts and
    masks of encode_to_slice compute them, give the characters of its quantum
    that are not pads.
   */
  lemma QuantumSymbols(g: seq<Rfc.Octet>)
    requires 1 <= |g| <= 3
    ensures var b0: int, b1: int, b2: int := g[0], if |g| > 1 then g[1] else 0, if |g| > 2 then g[2] else 0;
      var q := Rfc.EncodeQuantum(g);
      Rfc.Symbol(b0 / 4) == q[0] &&
      Rfc.Symbol(b0 % 4 * 16 + b1 / 16) == q[1] &&
      (|g| >= 2 ==> Rfc.Symbol(b1 % 16 * 4 + b2 / 64) == q[2]) &&
      (|g| == 3 ==> Rfc.Symbol(b2 % 64) == q[3])
  {
    Rfc.SextetsOfOctets(g);
  }

  /**
    The 6-bit groups of the complete input group s[3j..3j + 3] are the
    characters 4j to 4j + 3 of the reference encoding of `s`.
   */
  lemma FullGroupStep(s: seq<Rfc.Octet>, j: nat)
    requires 3 * j + 3 <= |s|
    ensures 4 * j + 4 <= |Rfc.Encode(s)|
    ensures Rfc.Symbol(s[3 * j] / 4) == Rfc.Encode(s)[4 * j]
    ensures Rfc.Symbol(s[3 * j] % 4 * 16 + s[3 * j + 1] / 16) == Rfc.Encode(s)[4 * j + 1]
    ensures Rfc.Symbol(s[3 * j + 1] % 16 * 4 + s[3 * j + 2] / 64) == Rfc.Encode(s)[4 * j + 2]
    ensures Rfc.Symbol(s[3 * j + 2] % 64) == Rfc.Encode(s)[4 * j + 3]
  {
    var g := s[3 * j .. 3 * j + 3];
    assert Rfc.GroupEnd(|s|, j) == 3 * j + 3;
    Rfc.EncodeQuantumAt(s, j);
    QuantumSymbols(g);
    var e, q := Rfc.Encode(s), Rfc.EncodeQuantum(g);
    assert g[0] == s[3 * j] && g[1] == s[3 * j + 1] && g[2] == s[3 * j + 2];
    assert e[4 * j .. 4 * j + 4] == q;
    WindowAt(e, 4 * j, q);
  }

  /** The characters of a window of four characters. */
  lemma WindowAt(e: seq<Rfc.Octet>, m: nat, q: seq<Rfc.Octet>)
    requires m + 4 <= |e| && e[m .. m + 4] == q
    ensures e[m] == q[0] && e[m + 1] == q[1] && e[m + 2] == q[2] && e[m + 3] == q[3]
  {
    assert e[m .. m + 4][1] == e[m + 1];
  }

  /** When the input does not end on a group boundary, its last quantum encodes the final, short group. */
  lemma LastQuantum(s: seq<Rfc.Octet>)
    requires |s| % 3 != 0
    ensures 4 * (|s| / 3) + 4 <= |Rfc.Encode(s)|
    ensures Rfc.Encode(s)[4 * (|s| / 3) .. 4 * (|s| / 3) + 4] == Rfc.EncodeQuantum(s[3 * (|s| / 3)..])
  {
    var j := |s| / 3;
    assert Rfc.GroupEnd(|s|, j) == |s| && 3 * j == 3 * (|s| / 3);
    Rfc.EncodeQuantumAt(s, j);
    assert s[3 * j .. |s|] == s[3 * j ..];
  }

  /** Where the final, short group of `n` octets starts and where its quantum ends. */
  lemma TailArithmetic(n: nat)
    requires n % 3 != 0
    ensures 3 * (n / 3) == n - n % 3
    ensures 4 * (n / 3) + 4 == 4 * ((n + 2) / 3)
  {
    var q, r := n / 3, n % 3;
    assert n == 3 * q + r;
    assert (n + 2) / 3 == q + 1;
  }

  /**
    The 6-bit groups of a final group of two octets are the first three
    characters of the last quantum of the reference encoding of `s`, and a
    pad character ends it.
   */
  lemma TwoByteTailStep(s: seq<Rfc.Octet>)
    requires |s| % 3 == 2
    ensures 4 * (|s| / 3) + 4 == |Rfc.Encode(s)|
    ensures Rfc.Symbol(s[|s| - 2] / 4) == Rfc.Encode(s)[4 * (|s| / 3)]
    ensures Rfc.Symbol(s[|s| - 2] % 4 * 16 + s[|s| - 1] / 16) == Rfc.Encode(s)[4 * (|s| / 3) + 1]
    ensures Rfc.Symbol(s[|s| - 1] % 16 * 4) == Rfc.Encode(s)[4 * (|s| / 3) + 2]
    ensures Rfc.Encode(s)[4 * (|s| / 3) + 3] == Rfc.PadSymbol
  {
    LastQuantum(s);
    Rfc.EncodeLength(s);
    TailArithmetic(|s|);
    var g := s[3 * (|s| / 3)..];
    assert |g| == 2 && g[0] == s[|s| - 2] && g[1] == s[|s| - 1];
    QuantumSymbols(g);
    var q := Rfc.EncodeQuantum(g);
    assert q[3] == Rfc.PadSymbol;
    WindowAt(Rfc.Encode(s), 4 * (|s| / 3), q);
  }

  /**
    The 6-bit groups of a final group of one octet are the first two
    characters of the last quantum of the reference encoding of `s`, and two
    pad characters end it.
   */
  lemma OneByteTailStep(s: seq<Rfc.Octet>)
    requires |s| % 3 == 1
    ensures 4 * (|s| / 3) + 4 == |Rfc.Encode(s)|
    ensures Rfc.Symbol(s[|s| - 1] / 4) == Rfc.Encode(s)[4 * (|s| / 3)]
    ensures Rfc.Symbol(s[|s| - 1] % 4 * 16) == Rfc.Encode(s)[4 * (|s| / 3) + 1]
    ensures Rfc.Encode(s)[4 * (|s| / 3) + 2] == Rfc.PadSymbol
    ensures Rfc.Encode(s)[4 * (|s| / 3) + 3] == Rfc.PadSymbol
  {
    LastQuantum(s);
    Rfc.EncodeLength(s);
    TailArithmetic(|s|);
    var g := s[3 * (|s| / 3)..];
    assert |g| == 1 && g[0] == s[|s| - 1];
    QuantumSymbols(g);
    var q := Rfc.EncodeQuantum(g);
    assert q[2] == Rfc.PadSymbol && q[3] == Rfc.PadSymbol;
    WindowAt(Rfc.Encode(s), 4 * (|s| / 3), q);
  }

  // ---------------------------------------------------------------------
  // encode_to_slice

  /** The reference encoding of `input`: what the bytes written by the encoder must be, as numbers. */
  function Reference(input: seq<bv8>): seq<Rfc.Octet>
  {
    Rfc.Encode(Octets(input))
  }

  /** The number of bytes encode_to_slice writes for `n` input bytes: everything but the padding. */
  function ConvertedSize(n: nat): nat
  {
    4 * (n / 3) + (if n % 3 == 2 then 3 else if n % 3 == 1 then 2 else 0)
  }

  /**
    The 6-bit groups of input group `group` are characters 4 * group to
    4 * group + 3 of the reference encoding.
   */
  lemma ChunkCharacters(input: seq<bv8>, group: nat)
    requires 3 * group + 3 <= |input|
    ensures 4 * group + 4 <= |Reference(input)|
    ensures Reference(input)[4 * group] == Rfc.Symbol(input[3 * group] as int / 4)
    ensures Reference(input)[4 * group + 1] ==
      Rfc.Symbol(input[3 * group] as int % 4 * 16 + input[3 * group + 1] as int / 16)
    ensures Reference(input)[4 * group + 2] ==
      Rfc.Symbol(input[3 * group + 1] as int % 16 * 4 + input[3 * group + 2] as int / 64)
    ensures Reference(input)[4 * group + 3] == Rfc.Symbol(input[3 * group + 2] as int % 64)
  {
    var s := Octets(input);
    assert s[3 * group] == input[3 * group] as int;
    assert s[3 * group + 1] == input[3 * group + 1] as int;
    assert s[3 * group + 2] == input[3 * group + 2] as int;
    FullGroupStep(s, group);
  }

  /** The final group of two bytes gives the first three characters of the last quantum of the reference encoding. */
  lemma TwoByteTailCharacters(input: seq<bv8>)
    requires |input| % 3 == 2
    ensures 4 * (|input| / 3) + 4 == |Reference(input)|
    ensures Reference(input)[4 * (|input| / 3)] == Rfc.Symbol(input[|input| - 2] as int / 4)
    ensures Reference(input)[4 * (|input| / 3) + 1] ==
      Rfc.Symbol(input[|input| - 2] as int % 4 * 16 + input[|input| - 1] as int / 16)
    ensures Reference(input)[4 * (|input| / 3) + 2] == Rfc.Symbol(input[|input| - 1] as int % 16 * 4)
  {
    var s := Octets(input);
    assert s[|s| - 2] == input[|input| - 2] as int;
    assert s[|s| - 1] == input[|input| - 1] as int;
    TwoByteTailStep(s);
  }

  /** The final group of one byte gives the first two characters of the last quantum of the reference encoding. */
  lemma OneByteTailCharacters(input: seq<bv8>)
    requires |input| % 3 == 1
    ensures 4 * (|input| / 3) + 4 == |Reference(input)|
    ensures Reference(input)[4 * (|input| / 3)] == Rfc.Symbol(input[|input| - 1] as int / 4)
    ensures Reference(input)[4 * (|input| / 3) + 1] == Rfc.Symbol(input[|input| - 1] as int % 4 * 16)
  {
    var s := Octets(input);
    assert s[|s| - 1] == input[|input| - 1] as int;
    OneByteTailStep(s);
  }

  // The *Symbols lemmas restate the *Characters lemmas over index values given
  // as parameters, so the methods' proof obligations stay small.

  /**
    The table indices computed as the 6-bit groups of input group `group`
    name characters 4 * group to 4 * group + 3 of the reference encoding.
   */
  lemma ChunkSymbols(input: seq<bv8>, expected: seq<Rfc.Octet>, group: nat, i0: int, i1: int, i2: int, i3: int)
    requires expected == Reference(input)
    requires 3 * group + 3 <= |input|
    requires i0 == input[3 * group] as int / 4
    requires i1 == input[3 * group] as int % 4 * 16 + input[3 * group + 1] as int / 16
    requires i2 == input[3 * group + 1] as int % 16 * 4 + input[3 * group + 2] as int / 64
    requires i3 == input[3 * group + 2] as int % 64
    ensures 4 * group + 4 <= |expected|
    ensures 0 <= i0 < 64 && 0 <= i1 < 64 && 0 <= i2 < 64 && 0 <= i3 < 64
    ensures expected[4 * group] == Rfc.Symbol(i0)
    ensures expected[4 * group + 1] == Rfc.Symbol(i1)
    ensures expected[4 * group + 2] == Rfc.Symbol(i2)
    ensures expected[4 * group + 3] == Rfc.Symbol(i3)
  {
    ChunkCharacters(input, group);
  }

  /**
    The table indices computed as the 6-bit groups of a final group of two
    bytes name the first three characters of the last quantum of the
    reference encoding, which is four characters from its end.
   */
  lemma TwoByteTailSymbols(input: seq<bv8>, expected: seq<Rfc.Octet>, i0: int, i1: int, i2: int)
    requires expected == Reference(input)
    requires |input| % 3 == 2
    requires i0 == input[|input| - 2] as int / 4
    requires i1 == input[|input| - 2] as int % 4 * 16 + input[|input| - 1] as int / 16
    requires i2 == input[|input| - 1] as int % 16 * 4
    ensures 4 * (|input| / 3) + 4 == |expected|
    ensures 0 <= i0 < 64 && 0 <= i1 < 64 && 0 <= i2 < 64
    ensures expected[4 * (|input| / 3)] == Rfc.Symbol(i0)
    ensures expected[4 * (|input| / 3) + 1] == Rfc.Symbol(i1)
    ensures expected[4 * (|input| / 3) + 2] == Rfc.Symbol(i2)
  {
    TwoByteTailCharacters(input);
  }

  /**
    The table indices computed as the 6-bit groups of a final group of one
    byte name the first two characters of the last quantum of the reference
    encoding, which is four characters from its end.
   */
  lemma OneByteTailSymbols(input: seq<bv8>, expected: seq<Rfc.Octet>, i0: int, i1: int)
    requires expected == Reference(input)
    requires |input| % 3 == 1
    requires i0 == input[|input| - 1] as int / 4
    requires i1 == input[|input| - 1] as int % 4 * 16
    ensures 4 * (|input| / 3) + 4 == |expected|
    ensures 0 <= i0 < 64 && 0 <= i1 < 64
    ensures expected[4 * (|input| / 3)] == Rfc.Symbol(i0)
    ensures expected[4 * (|input| / 3) + 1] == Rfc.Symbol(i1)
  {
    OneByteTailCharacters(input);
  }

  /** The first `n` bytes of the window of `output` at `lo` hold the first `n` characters of `expected`. */
  ghost predicate Written(output: array<bv8>, lo: nat, expected: seq<Rfc.Octet>, n: nat)
    reads output
  {
    lo + n <= output.Length && n <= |expected| &&
    forall k | 0 <= k < n :: output[lo + k] as int == expected[k]
  }

  /**
    One write of encode_to_slice: output[at] := BASE64_TABLE[i]. When that
    character is character `done` of `expected` and `at` is `done` bytes into
    the window at `lo`, the window then holds one more character of
    `expected`.
   */
  method PutSymbol(ghost expected: seq<Rfc.Octet>, ghost done: nat, output: array<bv8>, ghost lo: nat, at: nat, i: int)
    requires at == lo + done && at < output.Length && done < |expected|
    requires 0 <= i < 64 && expected[done] == Rfc.Symbol(i)
    requires Written(output, lo, expected, done)
    modifies output
    ensures Written(output, lo, expected, done + 1)
    ensures forall k | 0 <= k < output.Length && k != at :: output[k] == old(output[k])
  {
    var c := Lookup(i);
    output[at] := c;
  }

  /**
    The writes of one pass of encode_to_slice's main loop: the characters at
    table indices `i0` to `i3` go to output[at..at + 4]. When they are the
    characters `done` to `done + 3` of `expected` and `at` is `done` bytes
    into the window at `lo`, the window then holds four more characters of
    `expected`.
   */
  method WriteChunk(ghost expected: seq<Rfc.Octet>, ghost done: nat, output: array<bv8>, ghost lo: nat, at: nat,
                    i0: int, i1: int, i2: int, i3: int)
    requires at == lo + done && at + 4 <= output.Length && done + 4 <= |expected|
    requires 0 <= i0 < 64 && 0 <= i1 < 64 && 0 <= i2 < 64 && 0 <= i3 < 64
    requires expected[done] == Rfc.Symbol(i0)
    requires expected[done + 1] == Rfc.Symbol(i1)
    requires expected[done + 2] == Rfc.Symbol(i2)
    requires expected[done + 3] == Rfc.Symbol(i3)
    requires Written(output, lo, expected, done)
    modifies output
    ensures Written(output, lo, expected, done + 4)
    ensures forall k | 0 <= k < output.Length && !(at <= k < at + 4) :: output[k] == old(output[k])
  {
    PutSymbol(expected, done, output, lo, at, i0);
    PutSymbol(expected, done + 1, output, lo, at + 1, i1);
    PutSymbol(expected, done + 2, output, lo, at + 2, i2);
    PutSymbol(expected, done + 3, output, lo, at + 3, i3);
  }

  /** The writes of encode_to_slice for a final group of two bytes: three characters, as in WriteChunk. */
  method WriteTwoByteTail(ghost expected: seq<Rfc.Octet>, ghost done: nat, output: array<bv8>, ghost lo: nat, at: nat,
                          i0: int, i1: int, i2: int)
    requires at == lo + done && at + 3 <= output.Length && done + 3 <= |expected|
    requires 0 <= i0 < 64 && 0 <= i1 < 64 && 0 <= i2 < 64
    requires expected[done] == Rfc.Symbol(i0)
    requires expected[done + 1] == Rfc.Symbol(i1)
    requires expected[done + 2] == Rfc.Symbol(i2)
    requires Written(output, lo, expected, done)
    modifies output
    ensures Written(output, lo, expected, done + 3)
    ensures forall k | 0 <= k < output.Length && !(at <= k < at + 3) :: output[k] == old(output[k])
  {
    PutSymbol(expected, done, output, lo, at, i0);
    PutSymbol(expected, done + 1, output, lo, at + 1, i1);
    PutSymbol(expected, done + 2, output, lo, at + 2, i2);
  }

  /** The writes of encode_to_slice for a final group of one byte: two characters, as in WriteChunk. */
  method WriteOneByteTail(ghost expected: seq<Rfc.Octet>, ghost done: nat, output: array<bv8>, ghost lo: nat, at: nat,
                          i0: int, i1: int)
    requires at == lo + done && at + 2 <= output.Length && done + 2 <= |expected|
    requires 0 <= i0 < 64 && 0 <= i1 < 64
    requires expected[done] == Rfc.Symbol(i0)
    requires expected[done + 1] == Rfc.Symbol(i1)
    requires Written(output, lo, expected, done)
    modifies output
    ensures Written(output, lo, expected, done + 2)
    ensures forall k | 0 <= k < output.Length && !(at <= k < at + 2) :: output[k] == old(output[k])
  {
    PutSymbol(expected, done, output, lo, at, i0);
    PutSymbol(expected, done + 1, output, lo, at + 1, i1);
  }

  /**
    The table indices of input group `group`, which starts at input[i]: the
    group read as a number by read_u32 and cut into four 6-bit groups with
    LOW_SIX_BITS. They name characters 4 * group to 4 * group + 3 of the
    reference encoding.
   */
  method ChunkSextets(input: seq<bv8>, i: nat, ghost expected: seq<Rfc.Octet>, ghost group: nat)
      returns (i0: int, i1: int, i2: int, i3: int)
    requires i + 3 <= |input| && i == 3 * group && expected == Reference(input)
    ensures 4 * group + 4 <= |expected|
    ensures 0 <= i0 < 64 && 0 <= i1 < 64 && 0 <= i2 < 64 && 0 <= i3 < 64
    ensures expected[4 * group] == Rfc.Symbol(i0)
    ensures expected[4 * group + 1] == Rfc.Symbol(i1)
    ensures expected[4 * group + 2] == Rfc.Symbol(i2)
    ensures expected[4 * group + 3] == Rfc.Symbol(i3)
  {
    var inputChunk := ReadU32(input[i .. i + 3]);
    ChunkIndices(inputChunk, input[i], input[i + 1], input[i + 2]);
    i0 := ((inputChunk >> 18) & LowSixBits) as int;
    i1 := ((inputChunk >> 12) & LowSixBits) as int;
    i2 := ((inputChunk >> 6) & LowSixBits) as int;
    i3 := ((inputChunk >> 0) & LowSixBits) as int;
    ChunkSymbols(input, expected, group, i0, i1, i2, i3);
  }

  /**
    The table indices of a final group of two bytes, cut with u8 shifts and
    LOW_SIX_BITS_U8. They name the first three characters of the last quantum
    of the reference encoding.
   */
  method TwoByteTailSextets(input: seq<bv8>, lastIndex: nat, ghost expected: seq<Rfc.Octet>)
      returns (i0: int, i1: int, i2: int)
    requires |input| % 3 == 2 && lastIndex == |input| - 2 && expected == Reference(input)
    ensures 4 * (|input| / 3) + 4 == |expected|
    ensures 0 <= i0 < 64 && 0 <= i1 < 64 && 0 <= i2 < 64
    ensures expected[4 * (|input| / 3)] == Rfc.Symbol(i0)
    ensures expected[4 * (|input| / 3) + 1] == Rfc.Symbol(i1)
    ensures expected[4 * (|input| / 3) + 2] == Rfc.Symbol(i2)
  {
    TwoByteTailIndices(input[lastIndex], input[lastIndex + 1]);
    i0 := ((input[lastIndex] >> 2) & LowSixBitsU8) as int;
    i1 := (((input[lastIndex] << 4) | (input[lastIndex + 1] >> 4)) & LowSixBitsU8) as int;
    i2 := ((input[lastIndex + 1] << 2) & LowSixBitsU8) as int;
    TwoByteTailSymbols(input, expected, i0, i1, i2);
  }

  /**
    The table indices of a final group of one byte, cut with u8 shifts and
    LOW_SIX_BITS_U8. They name the first two characters of the last quantum
    of the reference encoding.
   */
  method OneByteTailSextets(input: seq<bv8>, lastIndex: nat, ghost expected: seq<Rfc.Octet>)
      returns (i0: int, i1: int)
    requires |input| % 3 == 1 && lastIndex == |input| - 1 && expected == Reference(input)
    ensures 4 * (|input| / 3) + 4 == |expected|
    ensures 0 <= i0 < 64 && 0 <= i1 < 64
    ensures expected[4 * (|input| / 3)] == Rfc.Symbol(i0)
    ensures expected[4 * (|input| / 3) + 1] == Rfc.Symbol(i1)
  {
    OneByteTailIndices(input[lastIndex]);
    i0 := ((input[lastIndex] >> 2) & LowSixBitsU8) as int;
    i1 := ((input[lastIndex] << 4) & LowSixBitsU8) as int;
    OneByteTailSymbols(input, expected, i0, i1);
  }

  /**
    encode_to_slice: writes the encoding of `input` without its padding to
    the window output[lo..hi] and returns the number of bytes written. The
    window must hold that many bytes; nothing outside the bytes written
    changes.
   */
  method EncodeToSlice(input: seq<bv8>, output: array<bv8>, lo: nat, hi: nat) returns (written: nat)
    requires lo <= hi <= output.Length
    requires ConvertedSize(|input|) <= hi - lo
    modifies output
    ensures written == ConvertedSize(|input|)
    ensures Written(output, lo, Reference(input), written)
    ensures forall k | 0 <= k < output.Length && !(lo <= k < lo + written) :: output[k] == old(output[k])
  {
    var inputIndex: nat := 0;
    var outputIndex: nat := 0;
    var rem := |input| % 3;
    var lastIndex := |input| - rem;
    ghost var groups: nat, total: nat := 0, |input| / 3;
    ghost var expected := Reference(input);
    assert lastIndex == 3 * total;
    assert 4 * total <= hi - lo;

    while inputIndex < lastIndex
      invariant inputIndex == 3 * groups && outputIndex == 4 * groups
      invariant groups <= total
      invariant lo + outputIndex + 4 * (total - groups) <= hi
      invariant Written(output, lo, expected, outputIndex)
      invariant forall k | 0 <= k < output.Length && !(lo <= k < lo + outputIndex) :: output[k] == old(output[k])
    {
      var i0, i1, i2, i3 := ChunkSextets(input, inputIndex, expected, groups);
      assert groups + 1 <= total;
      WriteChunk(expected, 4 * groups, output, lo, lo + outputIndex, i0, i1, i2, i3);
      inputIndex := inputIndex + 3;
      outputIndex := outputIndex + 4;
      groups := groups + 1;
    }
    assert groups == total;

    if rem == 2 {
      var i0, i1, i2 := TwoByteTailSextets(input, lastIndex, expected);
      WriteTwoByteTail(expected, 4 * total, output, lo, lo + outputIndex, i0, i1, i2);
      outputIndex := outputIndex + 3;
    } else if rem == 1 {
      var i0, i1 := OneByteTailSextets(input, lastIndex, expected);
      WriteOneByteTail(expected, 4 * total, output, lo, lo + outputIndex, i0, i1);
      outputIndex := outputIndex + 2;
    }

    written := outputIndex;
  }

  // ---------------------------------------------------------------------
  // add_padding

  /**
    add_padding: writes (3 - inputLen % 3) % 3 pad bytes at the start of the
    window output[lo..hi] and returns how many it wrote: the number of pad
    characters that end the encoding of `inputLen` bytes. The window must
    hold them; nothing else changes.
   */
  method AddPadding(inputLen: nat, output: array<bv8>, lo: nat, hi: nat) returns (count: nat)
    requires lo <= hi <= output.Length
    requires Rfc.PadLength(inputLen) <= hi - lo
    modifies output
    ensures count == Rfc.PadLength(inputLen)
    ensures forall k | lo <= k < lo + count :: output[k] == PadByte
    ensures forall k | 0 <= k < output.Length && !(lo <= k < lo + count) :: output[k] == old(output[k])
  {
    var rem := inputLen % 3;
    var len := (3 - rem) % 3;
    for i := 0 to len
      invariant forall k | lo <= k < lo + i :: output[k] == PadByte
      invariant forall k | 0 <= k < output.Length && !(lo <= k < lo + i) :: output[k] == old(output[k])
    {
      output[lo + i] := PadByte;
    }
    count := len;
  }

  // ---------------------------------------------------------------------
  // The reference encoding

  /** The reference encoding of `n` bytes is EncodeSize(n) characters long. */
  lemma ReferenceLength(input: seq<bv8>)
    ensures |Reference(input)| == EncodeSize(|input|)
  {
    EncodeSizeIsEncodedLength(Octets(input));
  }

  /** Without its padding, the encoding of `n` bytes is ConvertedSize(n) characters long. */
  lemma ConvertedSizeIsUnpadded(n: nat)
    ensures ConvertedSize(n) + Rfc.PadLength(n) == EncodeSize(n)
    ensures 4 * (n / 3) <= ConvertedSize(n) <= EncodeSize(n)
  {
  }

  /**
    The reference encoding consists of ConvertedSize(n) characters of
    BASE64_TABLE followed by PAD_BYTE up to EncodeSize(n).
   */
  lemma ReferenceShape(input: seq<bv8>, k: nat)
    requires k < EncodeSize(|input|)
    ensures |Reference(input)| == EncodeSize(|input|)
    ensures k < ConvertedSize(|input|) ==> exists v | 0 <= v < 64 :: Reference(input)[k] == Base64Table[v] as int
    ensures k < ConvertedSize(|input|) ==> Reference(input)[k] != PadByte as int
    ensures k >= ConvertedSize(|input|) ==> Reference(input)[k] == PadByte as int
  {
    var s := Octets(input);
    ReferenceLength(input);
    ConvertedSizeIsUnpadded(|input|);
    Rfc.EncodeShape(s, k);
    var c := Rfc.Encode(s)[k];
    if k < ConvertedSize(|input|) {
      var v := Rfc.SymbolValue(c).value;
      Rfc.SymbolValueRoundTrip(c);
      Rfc.PadIsNotAlphabet();
      TableIsAlphabet(v);
    } else {
      TableIsAlphabet(0);
    }
  }

  /**
    Every byte encode_to_slice writes is a byte of BASE64_TABLE and none is
    PAD_BYTE: the window holding the unpadded reference encoding holds
    nothing else.
   */
  lemma ConverterWritesAlphabet(output: array<bv8>, lo: nat, input: seq<bv8>)
    requires Written(output, lo, Reference(input), ConvertedSize(|input|))
    ensures forall k | lo <= k < lo + ConvertedSize(|input|) :: output[k] in Base64Table && output[k] != PadByte
  {
    ConvertedSizeIsUnpadded(|input|);
    forall k | lo <= k < lo + ConvertedSize(|input|)
      ensures output[k] in Base64Table && output[k] != PadByte
    {
      ReferenceShape(input, k - lo);
      var v :| 0 <= v < 64 && Reference(input)[k - lo] == Base64Table[v] as int;
      SameByte(output[k], Base64Table[v]);
    }
  }

  /** Decoding the reference encoding gives the input back. */
  lemma ReferenceDecodes(input: seq<bv8>)
    ensures Rfc.Decode(Reference(input)) == Rfc.Some(Octets(input))
  {
    Rfc.DecodeEncode(Octets(input));
  }

  /** Every character of the reference encoding is 7-bit ASCII. */
  lemma ReferenceAscii(input: seq<bv8>, k: nat)
    requires k < |Reference(input)|
    ensures Reference(input)[k] < 0x80
  {
    Rfc.EncodeIsAscii(Octets(input), k);
  }

  /** Byte sequences with the same numbers are equal: the reference encoding fixes the bytes. */
  lemma OctetsInjective(a: seq<bv8>, b: seq<bv8>)
    requires Octets(a) == Octets(b)
    ensures a == b
  {
    assert |a| == |Octets(a)| == |b|;
    forall i | 0 <= i < |a|
      ensures a[i] == b[i]
    {
      assert Octets(a)[i] == Octets(b)[i];
      SameByte(a[i], b[i]);
    }
  }

  /** The bytes written to a window, as a slice of the array. */
  lemma WrittenSlice(output: array<bv8>, lo: nat, expected: seq<Rfc.Octet>, n: nat)
    requires Written(output, lo, expected, n)
    ensures Octets(output[lo .. lo + n]) == expected[..n]
  {
  }

  // ---------------------------------------------------------------------
  // encode_with_padding, encode_slice, encode

  /**
    encode_with_padding: encode_to_slice followed by add_padding on the rest
    of the window. The window output[lo..hi] must be exactly `encodedSize`
    bytes, the padded size of the input; the converted and pad bytes then
    add up to it and the window holds the reference encoding.
   */
  method EncodeWithPadding(input: seq<bv8>, output: array<bv8>, lo: nat, hi: nat, encodedSize: nat)
    requires lo <= hi <= output.Length
    requires hi - lo == encodedSize
    requires encodedSize == EncodeSize(|input|)
    modifies output
    ensures |Reference(input)| == encodedSize
    ensures Written(output, lo, Reference(input), encodedSize)
    ensures forall k | 0 <= k < output.Length && !(lo <= k < hi) :: output[k] == old(output[k])
  {
    ConvertedSizeIsUnpadded(|input|);
    var b64Bytes := EncodeToSlice(input, output, lo, hi);
    var paddingBytes := AddPadding(|input|, output, lo + b64Bytes, hi);
    var encodedBytes := b64Bytes + paddingBytes;
    assert encodedBytes == encodedSize;
    ReferenceLength(input);
    forall k | 0 <= k < encodedSize
      ensures output[lo + k] as int == Reference(input)[k]
    {
      if k >= b64Bytes {
        ReferenceShape(input, k);
      }
    }
  }

  /**
    encode_slice: writes the padded encoding of `input` to the start of
    `output` and returns its length. `output` must be at least that long;
    the bytes after the encoding do not change.
   */
  method EncodeSlice(input: seq<bv8>, output: array<bv8>) returns (size: nat)
    requires EncodeSize(|input|) <= output.Length
    modifies output
    ensures size == EncodeSize(|input|)
    ensures Octets(output[..size]) == Reference(input)
    ensures output[size..] == old(output[size..])
  {
    var encodeSize := EncodeSize(|input|);
    EncodeWithPadding(input, output, 0, encodeSize, encodeSize);
    WrittenSlice(output, 0, Reference(input), encodeSize);
    size := encodeSize;
  }

  /**
    encode: the padded encoding of `input` in a fresh buffer of
    EncodeSize(|input|) bytes. Every byte is 7-bit ASCII, so the buffer is
    valid UTF-8 and String::from_utf8 cannot fail.
   */
  method Encode(input: seq<bv8>) returns (r: seq<bv8>)
    ensures |r| == EncodeSize(|input|)
    ensures Octets(r) == Reference(input)
    ensures forall k | 0 <= k < |r| :: r[k] as int < 0x80
  {
    var len := EncodeSize(|input|);
    var buf := new bv8[len](_ => 0);
    EncodeWithPadding(input, buf, 0, len, len);
    WrittenSlice(buf, 0, Reference(input), len);
    r := buf[..];
    assert r == buf[0 .. len];
    forall k | 0 <= k < |r|
      ensures r[k] as int < 0x80
    {
      assert Octets(r)[k] == r[k] as int;
      ReferenceAscii(input, k);
    }
  }

  // ---------------------------------------------------------------------
  // Test vectors of section 10 of RFC 4648, as bytes

  /** BASE64("f") = "Zg==" */
  lemma VectorF()
    ensures Reference([0x66]) == Octets([0x5A, 0x67, 0x3D, 0x3D])
  {
    assert Octets([0x66]) == [0x66];
    assert Octets([0x5A, 0x67, 0x3D, 0x3D]) == [0x5A, 0x67, 0x3D, 0x3D];
    Rfc.TestVectors();
  }

  /** BASE64("fo") = "Zm8=" */
  lemma VectorFo()
    ensures Reference([0x66, 0x6F]) == Octets([0x5A, 0x6D, 0x38, 0x3D])
  {
    assert Octets([0x66, 0x6F]) == [0x66, 0x6F];
    assert Octets([0x5A, 0x6D, 0x38, 0x3D]) == [0x5A, 0x6D, 0x38, 0x3D];
    Rfc.TestVectors();
  }

  /** BASE64("foo") = "Zm9v" */
  lemma VectorFoo()
    ensures Reference([0x66, 0x6F, 0x6F]) == Octets([0x5A, 0x6D, 0x39, 0x76])
  {
    assert Octets([0x66, 0x6F, 0x6F]) == [0x66, 0x6F, 0x6F];
    assert Octets([0x5A, 0x6D, 0x39, 0x76]) == [0x5A, 0x6D, 0x39, 0x76];
    Rfc.TestVectors();
  }

  /** BASE64("foob") = "Zm9vYg==" */
  lemma VectorFoob()
    ensures Reference([0x66, 0x6F, 0x6F, 0x62]) == Octets([0x5A, 0x6D, 0x39, 0x76, 0x59, 0x67, 0x3D, 0x3D])
  {
    assert Octets([0x66, 0x6F, 0x6F, 0x62]) == [0x66, 0x6F, 0x6F, 0x62];
    assert Octets([0x5A, 0x6D, 0x39, 0x76, 0x59, 0x67, 0x3D, 0x3D]) == [0x5A, 0x6D, 0x39, 0x76, 0x59, 0x67, 0x3D, 0x3D];
    Rfc.TestVectorFoob();
  }

  /** BASE64("fooba") = "Zm9vYmE=" */
  lemma VectorFooba()
    ensures Reference([0x66, 0x6F, 0x6F, 0x62, 0x61]) == Octets([0x5A, 0x6D, 0x39, 0x76, 0x59, 0x6D, 0x45, 0x3D])
  {
    assert Octets([0x66, 0x6F, 0x6F, 0x62, 0x61]) == [0x66, 0x6F, 0x6F, 0x62, 0x61];
    assert Octets([0x5A, 0x6D, 0x39, 0x76, 0x59, 0x6D, 0x45, 0x3D]) == [0x5A, 0x6D, 0x39, 0x76, 0x59, 0x6D, 0x45, 0x3D];
    Rfc.TestVectorFooba();
  }

  /** BASE64("foobar") = "Zm9vYmFy" */
  lemma VectorFoobar()
    ensures Reference([0x66, 0x6F, 0x6F, 0x62, 0x61, 0x72]) == Octets([0x5A, 0x6D, 0x39, 0x76, 0x59, 0x6D, 0x46, 0x79])
  {
    assert Octets([0x66, 0x6F, 0x6F, 0x62, 0x61, 0x72]) == [0x66, 0x6F, 0x6F, 0x62, 0x61, 0x72];
    assert Octets([0x5A, 0x6D, 0x39, 0x76, 0x59, 0x6D, 0x46, 0x79]) == [0x5A, 0x6D, 0x39, 0x76, 0x59, 0x6D, 0x46, 0x79];
    Rfc.TestVectorFoobar();
  }
}
