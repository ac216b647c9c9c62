# Base64 encoder, modelled and verified in Dafny

This project models the Base64 encoder of `src/encode.rs`. That encoder uses
the standard alphabet and padding of RFC 4648: the alphabet is Table 1 of
section 4, and padding works as section 3.2 describes. The parts modelled
are these.

- The constants `BASE64_TABLE` and `PAD_BYTE`.
- The size calculation `encode_size`.
- The symbol converter `encode_to_slice`, with its helper `read_u32`.
  - Its main loop packs each complete 3-byte group into a `u32`.
  - It then writes four table lookups into the output buffer.
  - A tail branch handles one or two leftover bytes.
- The padding writer `add_padding`.
- The three entry points `encode_with_padding`, `encode_slice` and `encode`.

The project has three modules.

- `Rfc4648` (`rfc4648.dfy`) is an independent reference definition of the
  encoding, on octets as numbers. It has:
  - the alphabet, defined by the ranges of Table 1;
  - the pad character;
  - the quantum of an input group, computed from its zero-filled 24-bit
    number;
  - `Encode`, defined recursively over 3-octet groups;
  - a decoder, used only to show that the encoding loses nothing.
- `Bits` (`bits.dfy`) holds facts about Rust `u8` and `u32` operations,
  modelled as Dafny `bv8` and `bv32`. A `bv8` left shift drops the high bits,
  as `u8 << n` does in Rust.
- `Encoder` (`encoder.dfy`) models `src/encode.rs` itself.
  - `encode_size` and `read_u32` are functions.
  - `encode_to_slice` and `add_padding` are methods that write into an
    `array<bv8>`, with loop invariants.
  - A Rust mutable sub-slice `&mut output[lo..hi]` becomes the window
    `[lo, hi)` of the array.
  - `Reference(input)` is the reference encoding of the input bytes:
    `Rfc4648.Encode` applied to `Octets(input)`, the bytes read as numbers.
  - The predicate `Written(output, lo, expected, n)` says that the first `n`
    bytes of the window at `lo` hold the first `n` characters of `expected`.
  - Each method's contract states the exact bytes it writes, in terms of
    `Reference` or `PAD_BYTE`. It also states which array positions stay unchanged.

## Model

| member | source | states |
|---|---|---|
| `Encoder.TableIsAlphabet` | src/encode.rs:1-7 | BASE64_TABLE has 64 entries, and entry i is the character Table 1 of RFC 4648 gives for the value i; PAD_BYTE is '=' |
| `Encoder.Lookup` | src/encode.rs:86-89 | reading BASE64_TABLE at an index below 64 gives the alphabet character for that value |
| `Encoder.EncodeSize` | src/encode.rs:49-60 | the result is a multiple of 4, its quanta of 4 characters hold at least n bytes at 3 bytes each, and it is the smallest such multiple (so it is 0 for n = 0) |
| `Encoder.EncodeSizeIsCeiling` | src/encode.rs:49-60 | encode_size(n) equals 4 * ceil(n / 3) |
| `Encoder.EncodeSizeIsEncodedLength` | src/encode.rs:49-60 | encode_size(n) is the length of the reference encoding of every n-byte input |
| `Encoder.ReadU32` | src/encode.rs:62-65 | the u32 has zero in its top byte and holds s[0], s[1] and s[2] in its next three bytes, most significant first |
| `Encoder.ChunkIndices` | src/encode.rs:74-89 | the four LOW_SIX_BITS indices cut from the read_u32 value are b0 / 4, b0 % 4 * 16 + b1 / 16, b1 % 16 * 4 + b2 / 64 and b2 % 64 |
| `Encoder.TwoByteTailIndices` | src/encode.rs:98-102 | with u8 shifts that drop bits, the three tail indices for two bytes are b0 / 4, b0 % 4 * 16 + b1 / 16 and b1 % 16 * 4 |
| `Encoder.OneByteTailIndices` | src/encode.rs:108-109 | with u8 shifts that drop bits, the two tail indices for one byte are b0 / 4 and b0 % 4 * 16 |
| `Bits.ShiftLeftLowSix` | src/encode.rs:99-102 | after `& 0x3f`, the bits that `u8 << 4` and `u8 << 2` drop make no difference |
| `Bits.FieldValues24` | src/encode.rs:86-89 | the four 6-bit fields of a 24-bit value, as numbers in terms of its three bytes |
| `Encoder.ChunkCharacters` | src/encode.rs:80-93 | input group k (input[3k..3k+3]) gives characters 4k to 4k+3 of the reference encoding, so groups are emitted in input order |
| `Encoder.TwoByteTailCharacters` | src/encode.rs:95-104 | a final group of two bytes gives the first three characters of the last quantum, which ends 4 * (n / 3) + 4 characters in |
| `Encoder.OneByteTailCharacters` | src/encode.rs:105-112 | a final group of one byte gives the first two characters of the last quantum |
| `Encoder.ChunkSextets` | src/encode.rs:83-89 | the indices computed from read_u32 and LOW_SIX_BITS are below 64 and name characters 4k to 4k+3 of the reference encoding |
| `Encoder.TwoByteTailSextets` | src/encode.rs:98-102 | the indices of the two-byte tail are below 64 and name the first three characters of the last quantum |
| `Encoder.OneByteTailSextets` | src/encode.rs:108-109 | the indices of the one-byte tail are below 64 and name the first two characters of the last quantum |
| `Encoder.PutSymbol` | src/encode.rs:86 | one table write extends the written prefix by one reference character and changes no other position |
| `Encoder.WriteChunk` | src/encode.rs:84-89 | the four writes of a loop pass extend the written prefix by four reference characters and change nothing outside output[at..at+4] |
| `Encoder.WriteTwoByteTail` | src/encode.rs:96-102 | the three tail writes extend the written prefix by three reference characters and change nothing else |
| `Encoder.WriteOneByteTail` | src/encode.rs:106-109 | the two tail writes extend the written prefix by two reference characters and change nothing else |
| `Encoder.EncodeToSlice` | src/encode.rs:70-115 | returns 4 * (n / 3) plus 0, 2 or 3 for n % 3 equal to 0, 1 or 2; the window then starts with that many bytes of the reference encoding; nothing outside them changes |
| `Encoder.ConvertedSizeIsUnpadded` | src/encode.rs:91-114 | the converter's count plus the pad count is encode_size(n), and the count lies between 4 * (n / 3) and encode_size(n) |
| `Encoder.ConverterWritesAlphabet` | src/encode.rs:86-109 | every byte the converter writes is a byte of BASE64_TABLE and is not PAD_BYTE |
| `Encoder.AddPadding` | src/encode.rs:121-130 | writes exactly (3 - n % 3) % 3 bytes, all PAD_BYTE, at the front of the window, returns that count and changes nothing else |
| `Encoder.ReferenceShape` | src/encode.rs:38-46 | the padded encoding is converter characters (table bytes, never '=') up to the converter's count, then '=' up to encode_size(n), so '=' appears only in the last 0 to 2 positions |
| `Encoder.EncodeWithPadding` | src/encode.rs:38-46 | with a window of exactly encode_size(n) bytes, the converter and padding bytes add up to it, and the window holds the whole reference encoding; nothing outside the window changes |
| `Encoder.EncodeSlice` | src/encode.rs:23-32 | needs output.len() >= encode_size(n), returns encode_size(n), fills output[..encode_size(n)] with the reference encoding and leaves the rest of output unchanged |
| `Encoder.Encode` | src/encode.rs:11-18 | returns encode_size(n) bytes that are the reference encoding, every one of them 7-bit ASCII, so String::from_utf8 succeeds |
| `Encoder.ReferenceLength` | src/encode.rs:12 | the reference encoding of n bytes is encode_size(n) long, the buffer length encode allocates |
| `Encoder.ReferenceAscii` | src/encode.rs:17 | every character of the reference encoding is below 0x80 |
| `Encoder.OctetsInjective` | src/encode.rs:23-32 | two byte sequences with the same values are equal, so encode_slice and encode produce the same bytes |
| `Encoder.ReferenceDecodes` | src/encode.rs:9-18 | decoding the reference encoding gives back the input bytes |
| `Encoder.WrittenSlice` | src/encode.rs:27 | the written prefix of a window, read as a slice, is the prefix of the expected characters |
| `Encoder.VectorF` | src/encode.rs:9-18 | the bytes of "f" encode to "Zg==" (section 10 of RFC 4648) |
| `Encoder.VectorFo` | src/encode.rs:9-18 | the bytes of "fo" encode to "Zm8=" |
| `Encoder.VectorFoo` | src/encode.rs:9-18 | the bytes of "foo" encode to "Zm9v" |
| `Encoder.VectorFoob` | src/encode.rs:9-18 | the bytes of "foob" encode to "Zm9vYg==" |
| `Encoder.VectorFooba` | src/encode.rs:9-18 | the bytes of "fooba" encode to "Zm9vYmE=" |
| `Encoder.VectorFoobar` | src/encode.rs:9-18 | the bytes of "foobar" encode to "Zm9vYmFy" |
| `Rfc4648.EncodeLength` | src/encode.rs:49-60 | the reference encoding of n octets has 4 * ceil(n / 3) characters |
| `Rfc4648.EncodeQuantumAt` | src/encode.rs:80-93 | input group j is encoded as characters 4j to 4j+3, so groups are encoded in input order, four characters each |
| `Rfc4648.EncodeShape` | src/encode.rs:38-46 | every character of an encoding is from the alphabet, except the last (3 - n % 3) % 3, which are '=' |
| `Rfc4648.SymbolRoundTrip` | src/encode.rs:1-6 | Table 1 maps 0..63 one-to-one into the alphabet, and never to '=' |
| `Rfc4648.SymbolValueRoundTrip` | src/encode.rs:1-6 | every alphabet character is the Table 1 character of its value, so the map is onto the alphabet |
| `Rfc4648.DecodeEncode` | src/encode.rs:9-18 | decoding the encoding of any octet sequence gives that sequence back |
| `Rfc4648.TestVectors` | src/encode.rs:9-18 | the vectors "", "f", "fo" and "foo" of section 10 of RFC 4648 |

## Left out

- The generic `T: AsRef<[u8]>` parameters of `encode` and `encode_slice`: the model takes a `seq<bv8>` directly.
- `String::from_utf8(...).expect(...)` in `encode`: `Encode` returns the bytes of the buffer, and its contract states that every byte is 7-bit ASCII, which is why that conversion cannot fail.
- Panics become `requires` clauses. These are the slice bounds of `encode_slice` at line 27, of the loop's `output_chunk` at line 84, and of the tail slices at lines 96 and 106. They are also the `output[i]` index of `add_padding` at line 126, and the `debug_assert_eq!` at line 39.
- The `debug_assert_eq!` at line 45 becomes `requires encodedSize == EncodeSize(|input|)` on `EncodeWithPadding`, which the callers at lines 15 and 29 meet by passing `encode_size`. The test at line 156 passes the length of its expected output instead, which is that size whenever the test's comparison succeeds. The `assert` on the byte count in `EncodeWithPadding` then follows from `ConvertedSizeIsUnpadded`.
- `usize` arithmetic: lengths and indices are unbounded `nat`, so the overflow of `encode_size` for huge lengths is not modelled.
- The test module (lines 132 and on) and its fixtures `plain.txt` and `encoded.txt` are not part of this model. The generic properties above stand in for its comparisons, and the section 10 vectors of RFC 4648 serve as concrete cases.
- Decoding: the repository has none. `Rfc4648.Decode` is a reference decoder, used only to prove that the encoding loses no information.
- The loop bodies of `encode_to_slice` are split into helper methods, for verification cost. `ChunkSextets` and the two tail `*Sextets` methods compute the table indices. `WriteChunk`, `WriteTwoByteTail` and `WriteOneByteTail` do the writes through `PutSymbol` and `Lookup`. The writes happen in the source's order. A group's indices are all computed before its writes, while the source computes each index just before writing it; the input does not change, so the bytes written are the same.
- `output_chunk`, the four-byte sub-slice at line 84, is not a separate object. Its writes go straight to the positions of the window.
- The fresh `vec![0u8; len]` of `encode` is a new array. The results of `Encode` and `EncodeSlice` are stated through `Octets`, the bytes read as numbers. `OctetsInjective` shows that this fixes the bytes.
