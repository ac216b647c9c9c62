/**
  The Base64 encoding of section 4 of RFC 4648, stated independently of any
  implementation: the alphabet of Table 1, the padding character, and the
  quantum-by-quantum encoding of an octet sequence. A decoder is given too, so
  that the encoding can be shown to lose no information.
 */
module Rfc4648 {

  datatype Option<T> = None | Some(value: T)

  /** An octet, and also the ASCII code of a character. */
  type Octet = x: int | 0 <= x < 256

  /** The character for the 6-bit value `v`, by the ranges of Table 1. */
  function Symbol(v: nat): (c: Octet)
    requires v < 64
  {
    if v < 26 then 'A' as int + v
    else if v < 52 then 'a' as int + (v - 26)
    else if v < 62 then '0' as int + (v - 52)
    else if v == 62 then '+' as int
    else '/' as int
  }

  /** The padding character (section 3.2). */
  const PadSymbol: Octet := '=' as int

  /** The 6-bit value a character stands for, if it is one of Table 1. */
  function SymbolValue(c: Octet): (r: Option<nat>)
    ensures r.Some? ==> r.value < 64
  {
    if 'A' as int <= c <= 'Z' as int then Some(c - 'A' as int)
    else if 'a' as int <= c <= 'z' as int then Some(c - 'a' as int + 26)
    else if '0' as int <= c <= '9' as int then Some(c - '0' as int + 52)
    else if c == '+' as int then Some(62)
    else if c == '/' as int then Some(63)
    else None
  }

  predicate IsAlphabet(c: Octet)
  {
    SymbolValue(c).Some?
  }

  /** Table 1 is a bijection between 0..63 and the alphabet, and the pad is not in it. */
  lemma SymbolRoundTrip(v: nat)
    requires v < 64
    ensures SymbolValue(Symbol(v)) == Some(v)
    ensures Symbol(v) != PadSymbol
  {
  }

  lemma SymbolValueRoundTrip(c: Octet)
    requires IsAlphabet(c)
    ensures SymbolValue(c).value < 64 && Symbol(SymbolValue(c).value) == c
  {
  }

  lemma PadIsNotAlphabet()
    ensures !IsAlphabet(PadSymbol)
  {
  }

  /** Every character of the alphabet and the pad character is 7-bit ASCII. */
  lemma AlphabetIsAscii(c: Octet)
    requires IsAlphabet(c) || c == PadSymbol
    ensures c < 128
  {
  }

  /**
    The 24-bit input group of section 4: the octets of `g` concatenated
    most significant first, with zero bits filling a final group of fewer
    than three octets.
   */
  function Group24(g: seq<Octet>): (n: nat)
    requires 1 <= |g| <= 3
    ensures n < 0x100_0000
  {
    var b0: int := g[0];
    var b1: int := if |g| > 1 then g[1] else 0;
    var b2: int := if |g| > 2 then g[2] else 0;
    b0 * 0x1_0000 + b1 * 0x100 + b2
  }

  /** The `k`-th of the four 6-bit groups of a 24-bit group, most significant first. */
  function Sextet(n: nat, k: nat): (v: nat)
    requires k < 4
    ensures v < 64
  {
    match k
    case 0 => n / 0x4_0000 % 64
    case 1 => n / 0x1000 % 64
    case 2 => n / 0x40 % 64
    case 3 => n % 64
  }

  /** The four 6-bit groups of an input group, in terms of its octets. */
  lemma SextetsOfOctets(g: seq<Octet>)
    requires 1 <= |g| <= 3
    ensures var n, b0 := Group24(g), g[0];
      var b1: int := if |g| > 1 then g[1] else 0;
      var b2: int := if |g| > 2 then g[2] else 0;
      Sextet(n, 0) == b0 / 4 &&
      Sextet(n, 1) == b0 % 4 * 16 + b1 / 16 &&
      Sextet(n, 2) == b1 % 16 * 4 + b2 / 64 &&
      Sextet(n, 3) == b2 % 64
  {
    var n, b0 := Group24(g), g[0];
    var b1: int := if |g| > 1 then g[1] else 0;
    var b2: int := if |g| > 2 then g[2] else 0;
    var d0, d1, d2, d3 := b0 / 4, b0 % 4 * 16 + b1 / 16, b1 % 16 * 4 + b2 / 64, b2 % 64;
    assert b0 == d0 * 4 + b0 % 4;
    assert b1 == b1 / 16 * 16 + b1 % 16;
    assert b2 == b2 / 64 * 64 + d3;
    assert n == d0 * 0x4_0000 + d1 * 0x1000 + d2 * 0x40 + d3;
    SextetsUnique(n, d0, d1, d2, d3);
  }

  /** The 6-bit groups of a number are its only base-64 digits. */
  lemma SextetsUnique(n: nat, d0: nat, d1: nat, d2: nat, d3: nat)
    requires d0 < 64 && d1 < 64 && d2 < 64 && d3 < 64
    requires n == d0 * 0x4_0000 + d1 * 0x1000 + d2 * 0x40 + d3
    ensures Sextet(n, 0) == d0 && Sextet(n, 1) == d1 && Sextet(n, 2) == d2 && Sextet(n, 3) == d3
  {
    assert n / 0x40 == d0 * 0x1000 + d1 * 0x40 + d2;
    assert n / 0x1000 == d0 * 0x40 + d1;
    assert n / 0x4_0000 == d0;
  }

  /**
    The four output characters for one input group of 1 to 3 octets: one
    character per 6-bit group that holds at least one input bit, then pad
    characters up to four.
   */
  function EncodeQuantum(g: seq<Octet>): (r: seq<Octet>)
    requires 1 <= |g| <= 3
    ensures |r| == 4
  {
    var n := Group24(g);
    [ Symbol(Sextet(n, 0)),
      Symbol(Sextet(n, 1)),
      if |g| >= 2 then Symbol(Sextet(n, 2)) else PadSymbol,
      if |g| == 3 then Symbol(Sextet(n, 3)) else PadSymbol ]
  }

  /** The Base64 encoding of `s`: its input groups, left to right, each encoded as a quantum. */
  function Encode(s: seq<Octet>): (r: seq<Octet>)
    decreases |s|
  {
    if |s| == 0 then []
    else if |s| <= 3 then EncodeQuantum(s)
    else EncodeQuantum(s[..3]) + Encode(s[3..])
  }

  /** The encoding of `n` octets has 4 * ceil(n / 3) characters. */
  lemma {:induction false} EncodeLength(s: seq<Octet>)
    ensures |Encode(s)| == 4 * ((|s| + 2) / 3)
    decreases |s|
  {
    if |s| > 3 {
      EncodeLength(s[3..]);
    }
  }

  /** The number of pad characters that end the encoding of `n` octets. */
  function PadLength(n: nat): nat
  {
    if n % 3 == 1 then 2 else if n % 3 == 2 then 1 else 0
  }

  /** The 1 to 3 octets that a quantum of four characters stands for. */
  function DecodeQuantum(q: seq<Octet>, last: bool): Option<seq<Octet>>
    requires |q| == 4
  {
    var v0, v1, v2, v3 := SymbolValue(q[0]), SymbolValue(q[1]), SymbolValue(q[2]), SymbolValue(q[3]);
    if v0.None? || v1.None? then None
    else if last && q[2] == PadSymbol && q[3] == PadSymbol then
      var n := v0.value * 0x4_0000 + v1.value * 0x1000;
      Some([(n / 0x1_0000)])
    else if v2.None? then None
    else if last && q[3] == PadSymbol then
      var n := v0.value * 0x4_0000 + v1.value * 0x1000 + v2.value * 0x40;
      Some([(n / 0x1_0000), (n / 0x100 % 0x100)])
    else if v3.None? then None
    else
      var n := v0.value * 0x4_0000 + v1.value * 0x1000 + v2.value * 0x40 + v3.value;
      Some([(n / 0x1_0000), (n / 0x100 % 0x100), (n % 0x100)])
  }

  /** Decodes a padded Base64 text; fails on a length that is not a multiple of 4 or a misplaced character. */
  function Decode(t: seq<Octet>): Option<seq<Octet>>
    decreases |t|
  {
    if |t| == 0 then Some([])
    else if |t| < 4 then None
    else
      match DecodeQuantum(t[..4], |t| == 4)
      case None => None
      case Some(g) =>
        match Decode(t[4..])
        case None => None
        case Some(rest) => Some(g + rest)
  }

  // ---------------------------------------------------------------------
  // Properties of the encoding

  /** In one quantum, the characters after the first |g| + 1 are pad characters. */
  lemma QuantumShape(g: seq<Octet>, i: nat)
    requires 1 <= |g| <= 3 && i < 4
    ensures i <= |g| ==> IsAlphabet(EncodeQuantum(g)[i])
    ensures i > |g| ==> EncodeQuantum(g)[i] == PadSymbol
  {
    if i <= |g| {
      SymbolRoundTrip(Sextet(Group24(g), i));
    }
  }

  /** The end of the `j`-th input group of an `n`-octet sequence. */
  function GroupEnd(n: nat, j: nat): nat
  {
    if 3 * j + 3 <= n then 3 * j + 3 else n
  }

  /**
    Input group `j` is encoded as output characters 4j to 4j + 3: groups are
    encoded in input order, four characters each.
   */
  lemma {:induction false} EncodeQuantumAt(s: seq<Octet>, j: nat)
    requires 3 * j < |s|
    ensures 4 * j + 4 <= |Encode(s)|
    ensures Encode(s)[4 * j .. 4 * j + 4] == EncodeQuantum(s[3 * j .. GroupEnd(|s|, j)])
    decreases j
  {
    if |s| > 3 {
      var rest := s[3..];
      var q := EncodeQuantum(s[..3]);
      assert Encode(s) == q + Encode(rest);
      if j > 0 {
        EncodeQuantumAt(rest, j - 1);
        SliceShift(s, j);
        ConcatSlice(q, Encode(rest), 4 * j);
      } else {
        assert (q + Encode(rest))[..4] == q;
      }
    }
  }

  /** Group j of s is group j - 1 of s[3..]. */
  lemma SliceShift(s: seq<Octet>, j: nat)
    requires 3 < |s| && 0 < j && 3 * j < |s|
    ensures s[3..][3 * (j - 1) .. GroupEnd(|s| - 3, j - 1)] == s[3 * j .. GroupEnd(|s|, j)]
  {
  }

  /** A window of q + e past q is a window of e. */
  lemma ConcatSlice(q: seq<Octet>, e: seq<Octet>, m: nat)
    requires |q| == 4 && 4 <= m && m + 4 <= |q| + |e|
    ensures (q + e)[m .. m + 4] == e[m - 4 .. m]
  {
  }

  /**
    Every character of an encoding is from the alphabet except the last
    PadLength(n) ones, which are pad characters.
   */
  lemma {:induction false} EncodeShape(s: seq<Octet>, i: nat)
    requires i < |Encode(s)|
    ensures i < |Encode(s)| - PadLength(|s|) ==> IsAlphabet(Encode(s)[i])
    ensures i >= |Encode(s)| - PadLength(|s|) ==> Encode(s)[i] == PadSymbol
    decreases |s|
  {
    if |s| <= 3 {
      ShortShape(s, i);
    } else if i < 4 {
      FirstQuantumShape(s, i);
    } else {
      ShiftShape(s, i);
      PadShift(|s|);
      EncodeShape(s[3..], i - 4);
    }
  }

  /** EncodeShape for a single input group. */
  lemma ShortShape(s: seq<Octet>, i: nat)
    requires |s| <= 3 && i < |Encode(s)|
    ensures i < |Encode(s)| - PadLength(|s|) ==> IsAlphabet(Encode(s)[i])
    ensures i >= |Encode(s)| - PadLength(|s|) ==> Encode(s)[i] == PadSymbol
  {
    assert Encode(s) == EncodeQuantum(s);
    PadOfGroup(|s|);
    QuantumShape(s, i);
  }

  /** A single group of n octets is followed by 3 - n pad characters. */
  lemma PadOfGroup(n: nat)
    requires 1 <= n <= 3
    ensures PadLength(n) == 3 - n
  {
  }

  /** EncodeShape in the first quantum of a longer encoding: there are no pads in it. */
  lemma FirstQuantumShape(s: seq<Octet>, i: nat)
    requires |s| > 3 && i < 4
    ensures i < |Encode(s)| - PadLength(|s|)
    ensures IsAlphabet(Encode(s)[i])
  {
    EncodeLength(s);
    assert Encode(s)[i] == EncodeQuantum(s[..3])[i];
    QuantumShape(s[..3], i);
  }

  /** Past the first quantum, character i of Encode(s) is character i - 4 of Encode(s[3..]), and the pads move with it. */
  lemma ShiftShape(s: seq<Octet>, i: nat)
    requires |s| > 3 && 4 <= i < |Encode(s)|
    ensures |Encode(s)| == |Encode(s[3..])| + 4
    ensures Encode(s)[i] == Encode(s[3..])[i - 4]
  {
    var q, e := EncodeQuantum(s[..3]), Encode(s[3..]);
    assert Encode(s) == q + e;
    ConcatAt(q, e, i);
  }

  /** Dropping one input group does not change the number of pad characters. */
  lemma PadShift(n: nat)
    requires n >= 3
    ensures PadLength(n) == PadLength(n - 3)
  {
    assert n % 3 == (n - 3) % 3;
  }

  /** Past q, character i of q + e is character i - |q| of e. */
  lemma ConcatAt(q: seq<Octet>, e: seq<Octet>, i: nat)
    requires |q| <= i < |q| + |e|
    ensures (q + e)[i] == e[i - |q|]
  {
  }

  /** Every character of an encoding is 7-bit ASCII. */
  lemma EncodeIsAscii(s: seq<Octet>, i: nat)
    requires i < |Encode(s)|
    ensures Encode(s)[i] < 128
  {
    EncodeShape(s, i);
    if i < |Encode(s)| - PadLength(|s|) {
      AlphabetIsAscii(Encode(s)[i]);
    }
  }

  // ---------------------------------------------------------------------
  // The encoding loses nothing

  /** A 24-bit group is the sum of its four 6-bit groups, weighted. */
  lemma SextetsRecombine(n: nat)
    requires n < 0x100_0000
    ensures Sextet(n, 0) * 0x4_0000 + Sextet(n, 1) * 0x1000 + Sextet(n, 2) * 0x40 + Sextet(n, 3) == n
  {
    var d3, m := n % 64, n / 64;
    assert n == m * 64 + d3;
    var d2, m2 := m % 64, m / 64;
    assert m == m2 * 64 + d2;
    var d1, d0 := m2 % 64, m2 / 64;
    assert m2 == d0 * 64 + d1;
    assert n == d0 * 0x4_0000 + d1 * 0x1000 + d2 * 0x40 + d3;
    SextetsUnique(n, d0, d1, d2, d3);
  }

  /** The octets of a group are the base-256 digits of its 24-bit number. */
  lemma Group24Octets(g: seq<Octet>)
    requires 1 <= |g| <= 3
    ensures Group24(g) / 0x1_0000 == g[0]
    ensures |g| >= 2 ==> Group24(g) / 0x100 % 0x100 == g[1]
    ensures |g| == 3 ==> Group24(g) % 0x100 == g[2]
    ensures |g| == 1 ==> Sextet(Group24(g), 2) == 0 && Sextet(Group24(g), 3) == 0
    ensures |g| == 2 ==> Sextet(Group24(g), 3) == 0
  {
    var n := Group24(g);
    var b0: int := g[0];
    var b1: int := if |g| > 1 then g[1] else 0;
    var b2: int := if |g| > 2 then g[2] else 0;
    assert n == b0 * 0x1_0000 + b1 * 0x100 + b2;
    assert n / 0x1_0000 == b0;
    assert n / 0x100 == b0 * 0x100 + b1;
    assert n / 0x100 % 0x100 == b1;
    assert n % 0x100 == b2;
    if |g| == 1 {
      assert n / 0x40 == b0 * 0x400 && n % 64 == 0;
    } else if |g| == 2 {
      assert n == (b0 * 0x400 + b1 * 4) * 0x40;
      assert n % 64 == 0;
    }
  }

  lemma DecodeEncodeQuantum(g: seq<Octet>, last: bool)
    requires 1 <= |g| <= 3
    requires |g| < 3 ==> last
    ensures DecodeQuantum(EncodeQuantum(g), last) == Some(g)
  {
    var n := Group24(g);
    SymbolRoundTrip(Sextet(n, 0));
    SymbolRoundTrip(Sextet(n, 1));
    SymbolRoundTrip(Sextet(n, 2));
    SymbolRoundTrip(Sextet(n, 3));
    SextetsRecombine(n);
    Group24Octets(g);
    var q := EncodeQuantum(g);
    if |g| == 1 {
      assert q[2] == PadSymbol && q[3] == PadSymbol;
      assert Sextet(n, 0) * 0x4_0000 + Sextet(n, 1) * 0x1000 == n;
      assert g == [g[0]];
    } else if |g| == 2 {
      assert q[2] != PadSymbol && q[3] == PadSymbol;
      assert Sextet(n, 0) * 0x4_0000 + Sextet(n, 1) * 0x1000 + Sextet(n, 2) * 0x40 == n;
      assert g == [g[0], g[1]];
    } else {
      assert q[3] != PadSymbol;
      assert g == [g[0], g[1], g[2]];
    }
  }

  /** Decoding the encoding of any octet sequence gives that sequence back. */
  lemma {:induction false} DecodeEncode(s: seq<Octet>)
    ensures Decode(Encode(s)) == Some(s)
    decreases |s|
  {
    var t := Encode(s);
    if 0 < |s| <= 3 {
      DecodeEncodeQuantum(s, true);
      assert t[..4] == t && t[4..] == [];
      assert s + [] == s;
    } else if |s| > 3 {
      assert t[..4] == EncodeQuantum(s[..3]);
      assert t[4..] == Encode(s[3..]);
      DecodeEncodeQuantum(s[..3], |t| == 4);
      DecodeEncode(s[3..]);
      assert s == s[..3] + s[3..];
    }
  }

  // ---------------------------------------------------------------------
  // Test vectors of section 10

  /** The quantum of "f". */
  lemma QuantumF()
    ensures EncodeQuantum(['f' as int]) == ['Z' as int, 'g' as int, '=' as int, '=' as int]
  {
  }

  /** The quantum of "fo". */
  lemma QuantumFo()
    ensures EncodeQuantum(['f' as int, 'o' as int]) == ['Z' as int, 'm' as int, '8' as int, '=' as int]
  {
  }

  /** The quantum of "foo". */
  lemma QuantumFoo()
    ensures EncodeQuantum(['f' as int, 'o' as int, 'o' as int]) == ['Z' as int, 'm' as int, '9' as int, 'v' as int]
  {
  }

  /** The quantum of "b". */
  lemma QuantumB()
    ensures EncodeQuantum(['b' as int]) == ['Y' as int, 'g' as int, '=' as int, '=' as int]
  {
  }

  /** The quantum of "ba". */
  lemma QuantumBa()
    ensures EncodeQuantum(['b' as int, 'a' as int]) == ['Y' as int, 'm' as int, 'E' as int, '=' as int]
  {
  }

  /** The quantum of "bar". */
  lemma QuantumBar()
    ensures EncodeQuantum(['b' as int, 'a' as int, 'r' as int]) == ['Y' as int, 'm' as int, 'F' as int, 'y' as int]
  {
  }

  /** BASE64("") = "", BASE64("f") = "Zg==", BASE64("fo") = "Zm8=", BASE64("foo") = "Zm9v". */
  lemma TestVectors()
    ensures Encode([]) == []
    ensures Encode(['f' as int]) == ['Z' as int, 'g' as int, '=' as int, '=' as int]
    ensures Encode(['f' as int, 'o' as int]) == ['Z' as int, 'm' as int, '8' as int, '=' as int]
    ensures Encode(['f' as int, 'o' as int, 'o' as int]) == ['Z' as int, 'm' as int, '9' as int, 'v' as int]
  {
    QuantumF();
    QuantumFo();
    QuantumFoo();
  }

  /** BASE64("foob") = "Zm9vYg==" */
  lemma TestVectorFoob()
    ensures Encode(['f' as int, 'o' as int, 'o' as int, 'b' as int]) == ['Z' as int, 'm' as int, '9' as int, 'v' as int, 'Y' as int, 'g' as int, '=' as int, '=' as int]
  {
    var s := ['f' as int, 'o' as int, 'o' as int, 'b' as int];
    assert s[..3] == ['f' as int, 'o' as int, 'o' as int] && s[3..] == ['b' as int];
    QuantumFoo();
    QuantumB();
  }

  /** BASE64("fooba") = "Zm9vYmE=" */
  lemma TestVectorFooba()
    ensures Encode(['f' as int, 'o' as int, 'o' as int, 'b' as int, 'a' as int]) == ['Z' as int, 'm' as int, '9' as int, 'v' as int, 'Y' as int, 'm' as int, 'E' as int, '=' as int]
  {
    var s := ['f' as int, 'o' as int, 'o' as int, 'b' as int, 'a' as int];
    assert s[..3] == ['f' as int, 'o' as int, 'o' as int] && s[3..] == ['b' as int, 'a' as int];
    QuantumFoo();
    QuantumBa();
  }

  /** BASE64("foobar") = "Zm9vYmFy" */
  lemma TestVectorFoobar()
    ensures Encode(['f' as int, 'o' as int, 'o' as int, 'b' as int, 'a' as int, 'r' as int]) == ['Z' as int, 'm' as int, '9' as int, 'v' as int, 'Y' as int, 'm' as int, 'F' as int, 'y' as int]
  {
    var s := ['f' as int, 'o' as int, 'o' as int, 'b' as int, 'a' as int, 'r' as int];
    assert s[..3] == ['f' as int, 'o' as int, 'o' as int] && s[3..] == ['b' as int, 'a' as int, 'r' as int];
    QuantumFoo();
    QuantumBar();
  }
}
