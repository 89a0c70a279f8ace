/**
 * The `encode` function of `static/app.js`: Base64 as in section 4 of
 * RFC 4648, over a `Uint8Array`.
 *
 * `Encode` is the JavaScript loop, with its bit operations on bytes and its
 * reads past the end of the input (which yield NaN). `Encoding` is the
 * definition from the RFC: each group of three bytes is one 24-bit number
 * cut into four 6-bit indices, and a final group of one or two bytes is
 * completed with zero bits and padded with `=`. `Decode` is the RFC's
 * inverse, which the client itself does not contain.
 */
module Base64 {
  import opened Wrappers

  /**
   * An element of a `Uint8Array`. Unlike the `bv8` bytes of the server
   * model, the encoder works on integers: its shifts and masks are written
   * as division, remainder and multiplication, which the verifier handles
   * far more cheaply on `int` than conversions between bit-vectors and
   * integers.
   */
  type byte = x: int | 0 <= x < 256

  /** `keyStr`: the 64 symbols of the RFC's alphabet, then the pad character at index 64. */
  const KeyStr: string := "ABCDEFGHIJKLMNOPQRSTUVWXYZ" + "abcdefghijklmnopqrstuvwxyz" + "0123456789" + "+/="

  /** The index of the pad character `=` in `KeyStr`. */
  const Pad: nat := 64

  /** A value read from the input: an element, or NaN for an index past its end. */
  datatype Num = Byte(b: byte) | NaN

  /** The integer a JavaScript bitwise operator makes of its operand: NaN becomes 0. */
  function ToInt32(x: Num): byte {
    if x.NaN? then 0 else x.b
  }

  /**
   * The four 6-bit digits of the 24-bit number `b1 * 2^16 + b2 * 2^8 + b3`,
   * most significant first.
   */
  function Digits(b1: byte, b2: byte, b3: byte): (d: seq<nat>)
    ensures |d| == 4 && d[0] < 64 && d[1] < 64 && d[2] < 64 && d[3] < 64
  {
    var v := b1 * 65536 + b2 * 256 + b3;
    [v / 262144 % 64, v / 4096 % 64, v / 64 % 64, v % 64]
  }

  /**
   * The digits, taken apart byte by byte: the top six bits of `b1`; its
   * low two bits and the top four of `b2`; the low four bits of `b2` and
   * the top two of `b3`; the low six bits of `b3`.
   */
  lemma DigitsOfBytes(b1: byte, b2: byte, b3: byte)
    ensures Digits(b1, b2, b3) == [b1 / 4, (b1 % 4) * 16 + b2 / 16, (b2 % 16) * 4 + b3 / 64, b3 % 64]
  {
    HighDigits(b1, b2, b3);
    LowDigits(b1, b2, b3);
  }

  /** Quotient and remainder by one of the powers of two used here, from a decomposition. */
  lemma DivMod(x: int, m: int, q: int, r: int)
    requires m == 4 || m == 16 || m == 64 || m == 4096 || m == 262144
    requires 0 <= r < m && x == q * m + r
    ensures x / m == q && x % m == r
  {
  }

  lemma HighDigits(b1: byte, b2: byte, b3: byte)
    ensures b1 / 4 == (b1 * 65536 + b2 * 256 + b3) / 262144 % 64
    ensures (b1 % 4) * 16 + b2 / 16 == ((b1 * 65536 + b2 * 256 + b3) / 4096) % 64
  {
    var v := b1 * 65536 + b2 * 256 + b3;
    DivMod(v, 262144, b1 / 4, (b1 % 4) * 65536 + b2 * 256 + b3);
    DivMod(b1 / 4, 64, 0, b1 / 4);
    DivMod(v, 4096, b1 * 16 + b2 / 16, (b2 % 16) * 256 + b3);
    DivMod(b1 * 16 + b2 / 16, 64, b1 / 4, (b1 % 4) * 16 + b2 / 16);
  }

  lemma LowDigits(b1: byte, b2: byte, b3: byte)
    ensures (b2 % 16) * 4 + b3 / 64 == ((b1 * 65536 + b2 * 256 + b3) / 64) % 64
    ensures b3 % 64 == (b1 * 65536 + b2 * 256 + b3) % 64
  {
    var v := b1 * 65536 + b2 * 256 + b3;
    DivMod(v, 64, b1 * 1024 + b2 * 4 + b3 / 64, b3 % 64);
    DivMod(b1 * 1024 + b2 * 4 + b3 / 64, 64, b1 * 16 + b2 / 16, (b2 % 16) * 4 + b3 / 64);
  }

  /** One group of one to three bytes, missing bytes taken as zero, encoded and padded to four characters. */
  function EncodeGroup(g: seq<byte>): (r: string)
    requires 1 <= |g| <= 3
  {
    var d := Digits(g[0], if |g| > 1 then g[1] else 0, if |g| > 2 then g[2] else 0);
    [KeyStr[d[0]], KeyStr[d[1]]]
    + (if |g| > 1 then [KeyStr[d[2]]] else "=")
    + (if |g| > 2 then [KeyStr[d[3]]] else "=")
  }

  /** The Base64 encoding of `s`, three bytes at a time. */
  function Encoding(s: seq<byte>): string
    decreases |s|
  {
    if |s| == 0 then ""
    else if |s| <= 3 then EncodeGroup(s)
    else EncodeGroup(s[..3]) + Encoding(s[3..])
  }

  /**
   * `encode`: the loop of the client, which agrees with the RFC's encoding
   * on every input. On values below 256 its shifts and masks are integer
   * arithmetic, and that is how they are written here: `x >> k` is
   * `x / 2^k`, `x & (2^k - 1)` is `x % 2^k`, `x << k` is `x * 2^k`, and `|`
   * joins bit ranges that do not overlap, so it is `+`.
   */
  method Encode(input: seq<byte>) returns (output: string)
    ensures output == Encoding(input)
  {
    output := "";
    var i := 0;
    while i < |input|
      invariant 0 <= i <= |input|
      invariant output + Encoding(input[i..]) == Encoding(input)
    {
      ghost var start := i;
      var chr1 := input[i];
      i := i + 1;
      var chr2 := NaN;
      if i < |input| {
        chr2 := Byte(input[i]);
        i := i + 1;
      }
      var chr3 := NaN;
      if i < |input| {
        chr3 := Byte(input[i]);
        i := i + 1;
      }
      ghost var g := input[start..i];
      ReadGroup(input, start, i);
      GroupStep(input, start, i);
      Regroup(output, Encoding(input), Encoding(input[start..]), EncodeGroup(g), Encoding(input[i..]));

      var enc1 := chr1 / 4;
      var enc2 := (chr1 % 4) * 16 + ToInt32(chr2) / 16;
      var enc3 := (ToInt32(chr2) % 16) * 4 + ToInt32(chr3) / 64;
      var enc4 := ToInt32(chr3) % 64;

      if chr2.NaN? {
        enc3, enc4 := Pad, Pad;
      } else if chr3.NaN? {
        enc4 := Pad;
      }
      LoopGroup(chr1, chr2, chr3, g, enc1, enc2, enc3, enc4);
      assert [KeyStr[enc1], KeyStr[enc2], KeyStr[enc3], KeyStr[enc4]] == EncodeGroup(g);
      output := output + [KeyStr[enc1], KeyStr[enc2], KeyStr[enc3], KeyStr[enc4]];
    }
    assert input[i..] == [];
  }

  /**
   * The four characters one pass of the loop computes from `chr1`, `chr2`
   * and `chr3` (NaN past the end of the input) are the encoding of the
   * group of bytes it read.
   */
  lemma LoopGroup(chr1: byte, chr2: Num, chr3: Num, g: seq<byte>, enc1: nat, enc2: nat, enc3: nat, enc4: nat)
    requires chr2.NaN? ==> chr3.NaN?
    requires g == [chr1] + (if chr2.Byte? then [chr2.b] else []) + (if chr3.Byte? then [chr3.b] else [])
    requires enc1 == chr1 / 4
    requires enc2 == (chr1 % 4) * 16 + ToInt32(chr2) / 16
    requires enc3 == if chr2.NaN? then Pad else (ToInt32(chr2) % 16) * 4 + ToInt32(chr3) / 64
    requires enc4 == if chr3.NaN? then Pad else ToInt32(chr3) % 64
    ensures enc1 <= 64 && enc2 <= 64 && enc3 <= 64 && enc4 <= 64
    ensures [KeyStr[enc1], KeyStr[enc2], KeyStr[enc3], KeyStr[enc4]] == EncodeGroup(g)
  {
    assert g[0] == chr1;
    assert |g| > 1 ==> g[1] == ToInt32(chr2);
    assert |g| > 2 ==> g[2] == ToInt32(chr3);
    var d := Digits(chr1, ToInt32(chr2), ToInt32(chr3));
    DigitsOfBytes(chr1, ToInt32(chr2), ToInt32(chr3));
    assert enc1 == d[0] && enc2 == d[1];
    assert |g| > 1 ==> enc3 == d[2];
    assert |g| > 2 ==> enc4 == d[3];
  }

  /** Output so far, then the encoding of one more group, then the rest: regrouped. */
  lemma Regroup(output: string, whole: string, tail: string, group: string, rest: string)
    requires output + tail == whole && tail == group + rest
    ensures (output + group) + rest == whole
  {
    assert (output + group) + rest == output + (group + rest);
  }

  /** The bytes one pass of the loop reads from index `i`: up to three, fewer at the end. */
  lemma ReadGroup(input: seq<byte>, i: nat, next: nat)
    requires i < |input| && next == if i + 3 < |input| then i + 3 else |input|
    ensures input[i..next] == [input[i]]
      + (if i + 1 < |input| then [input[i + 1]] else [])
      + (if i + 2 < |input| then [input[i + 2]] else [])
  {
  }

  /** The encoding of `input` from `start` on is that of its next group, then that of the rest. */
  lemma GroupStep(input: seq<byte>, start: nat, i: nat)
    requires start < i <= |input| && i - start <= 3
    requires i - start < 3 ==> i == |input|
    ensures Encoding(input[start..]) == EncodeGroup(input[start..i]) + Encoding(input[i..])
  {
    if i < |input| {
      assert input[start..][..3] == input[start..i];
      assert input[start..][3..] == input[i..];
    } else {
      assert input[start..] == input[start..i];
    }
  }

  /** Four characters for each group of up to three bytes: the output has length 4 * ceil(n / 3). */
  lemma {:induction false} EncodedLength(s: seq<byte>)
    ensures |Encoding(s)| == 4 * ((|s| + 2) / 3)
    decreases |s|
  {
    if |s| == 0 {
      assert Encoding(s) == "";
    } else if |s| <= 3 {
      GroupLength(s);
      assert (|s| + 2) / 3 == 1;
    } else {
      GroupLength(s[..3]);
      EncodedLength(s[3..]);
      assert |Encoding(s)| == 4 + |Encoding(s[3..])|;
      assert (|s| + 2) / 3 == (|s[3..]| + 2) / 3 + 1;
    }
  }

  /** Every group is encoded as four characters. */
  lemma GroupLength(g: seq<byte>)
    requires 1 <= |g| <= 3
    ensures |EncodeGroup(g)| == 4
  {
  }

  /** Every character of the output is one of the 65 characters of `KeyStr`. */
  lemma {:induction false} EncodedAlphabet(s: seq<byte>)
    ensures forall k :: 0 <= k < |Encoding(s)| ==> Encoding(s)[k] in KeyStr
    decreases |s|
  {
    if |s| > 3 {
      EncodedAlphabet(s[3..]);
      var e := Encoding(s);
      assert e == EncodeGroup(s[..3]) + Encoding(s[3..]);
      forall k | 0 <= k < |e| ensures e[k] in KeyStr {
        if k >= 4 {
          assert e[k] == Encoding(s[3..])[k - 4];
        }
      }
    }
  }

  /** The position of a character in `KeyStr`, or -1 for a character outside it. */
  function IndexOf(c: char): (i: int)
    ensures -1 <= i <= 64
  {
    if 'A' <= c <= 'Z' then c as int - 'A' as int
    else if 'a' <= c <= 'z' then c as int - 'a' as int + 26
    else if '0' <= c <= '9' then c as int - '0' as int + 52
    else if c == '+' then 62
    else if c == '/' then 63
    else if c == '=' then 64
    else -1
  }

  /** `IndexOf` inverts `KeyStr`: the 65 characters of `KeyStr` are distinct. */
  lemma IndexOfKeyStr(i: nat)
    requires i < 65
    ensures IndexOf(KeyStr[i]) == i
  {
    // one case per character of KeyStr
    if i < 26 {
      assert i in {0, 1, 2, 3, 4, 5, 6, 7, 8, 9, 10, 11, 12, 13, 14, 15, 16, 17, 18, 19, 20, 21, 22, 23, 24, 25};
    } else if i < 52 {
      assert i in {26, 27, 28, 29, 30, 31, 32, 33, 34, 35, 36, 37, 38, 39, 40, 41, 42, 43, 44, 45, 46, 47, 48, 49, 50, 51};
    } else {
      assert i in {52, 53, 54, 55, 56, 57, 58, 59, 60, 61, 62, 63, 64};
    }
  }

  /** A symbol that encodes data is never the pad character. */
  lemma SymbolIsNotPad(e: nat)
    requires e < 64
    ensures KeyStr[e] != '='
  {
    IndexOfKeyStr(e);
  }

  /** Where `=` appears in one encoded group: nowhere for three bytes, last for two, last two for one. */
  lemma GroupPadding(g: seq<byte>)
    requires 1 <= |g| <= 3
    ensures |EncodeGroup(g)| == 4
    ensures EncodeGroup(g)[0] != '=' && EncodeGroup(g)[1] != '='
    ensures EncodeGroup(g)[2] == '=' <==> |g| == 1
    ensures EncodeGroup(g)[3] == '=' <==> |g| <= 2
  {
    var d := Digits(g[0], if |g| > 1 then g[1] else 0, if |g| > 2 then g[2] else 0);
    SymbolIsNotPad(d[0]);
    SymbolIsNotPad(d[1]);
    SymbolIsNotPad(d[2]);
    SymbolIsNotPad(d[3]);
  }

  /**
   * Padding follows the input length: for `n % 3 == 0` no `=` at all; for
   * `n % 3 == 1` exactly the last two characters are `=`; for `n % 3 == 2`
   * exactly the last one is.
   */
  lemma {:induction false} EncodedPadding(s: seq<byte>)
    ensures var e := Encoding(s);
      |e| == 4 * ((|s| + 2) / 3) &&
      forall k :: 0 <= k < |e| ==>
        (e[k] == '=' <==> (|s| % 3 == 1 && k >= |e| - 2) || (|s| % 3 == 2 && k == |e| - 1))
    decreases |s|
  {
    EncodedLength(s);
    var e := Encoding(s);
    if 1 <= |s| <= 3 {
      GroupPadding(s);
    } else if |s| > 3 {
      var t := s[3..];
      var et := Encoding(t);
      GroupPadding(s[..3]);
      EncodedPadding(t);
      EncodedLength(t);
      assert e == EncodeGroup(s[..3]) + et;
      ModThree(|s|);
      assert |et| == |e| - 4 && |et| >= 4;
      forall k | 0 <= k < |e|
        ensures e[k] == '=' <==> (|s| % 3 == 1 && k >= |e| - 2) || (|s| % 3 == 2 && k == |e| - 1)
      {
        if k >= 4 {
          assert e[k] == et[k - 4];
        } else {
          assert e[k] == EncodeGroup(s[..3])[k] != '=';
        }
      }
    }
  }

  /** Dropping a group of three bytes leaves the remainder modulo 3 unchanged. */
  lemma ModThree(n: nat)
    requires n >= 3
    ensures (n - 3) % 3 == n % 3
  {
  }

  /** The 6-bit value a decoder reads from a character: its index, or 0 outside the 64 symbols. */
  function SextetOf(c: char): (e: nat)
    ensures e < 64
  {
    var i := IndexOf(c);
    if 0 <= i < 64 then i else 0
  }

  /** The RFC decoding of one group of four characters; `=` may end it. */
  function DecodeGroup(q: string): Option<seq<byte>>
    requires |q| == 4
  {
    var i1, i2, i3, i4 := IndexOf(q[0]), IndexOf(q[1]), IndexOf(q[2]), IndexOf(q[3]);
    var e1, e2, e3, e4 := SextetOf(q[0]), SextetOf(q[1]), SextetOf(q[2]), SextetOf(q[3]);
    var b1: byte := e1 * 4 + e2 / 16;
    var b2: byte := (e2 % 16) * 16 + e3 / 4;
    var b3: byte := (e3 % 4) * 64 + e4;
    if !(0 <= i1 < 64 && 0 <= i2 < 64 && 0 <= i3 && 0 <= i4) then None
    else if i3 == 64 then (if i4 == 64 then Some([b1]) else None)
    else if i4 == 64 then Some([b1, b2])
    else Some([b1, b2, b3])
  }

  /** The RFC decoding of a whole string: groups of four characters, padding only in the last one. */
  function Decode(t: string): Option<seq<byte>>
    decreases |t|
  {
    if |t| == 0 then Some([])
    else if |t| < 4 then None
    else
      match DecodeGroup(t[..4])
      case None => None
      case Some(g) =>
        if |t| > 4 && |g| < 3 then None
        else
          match Decode(t[4..])
          case None => None
          case Some(rest) => Some(g + rest)
  }

  /** A decoder recovers the three bytes of a group from its four digits. */
  lemma Unsplit(c1: byte, c2: byte, c3: byte)
    ensures var d := Digits(c1, c2, c3);
      && d[0] * 4 + d[1] / 16 == c1
      && (d[1] % 16) * 16 + d[2] / 4 == c2
      && (d[2] % 4) * 64 + d[3] == c3
  {
    DigitsOfBytes(c1, c2, c3);
    DivMod(c1, 4, c1 / 4, c1 % 4);
    DivMod((c1 % 4) * 16 + c2 / 16, 16, c1 % 4, c2 / 16);
    DivMod(c2, 16, c2 / 16, c2 % 16);
    DivMod((c2 % 16) * 4 + c3 / 64, 4, c2 % 16, c3 / 64);
    DivMod(c3, 64, c3 / 64, c3 % 64);
  }

  /** Reading back the character of an index gives the index. */
  lemma SextetOfKeyStr(e: nat)
    requires e < 64
    ensures SextetOf(KeyStr[e]) == e
    ensures 0 <= IndexOf(KeyStr[e]) < 64
  {
    IndexOfKeyStr(e);
  }

  /** The facts a decoder uses about the four characters of an encoded group. */
  lemma GroupSymbols(g: seq<byte>)
    requires 1 <= |g| <= 3
    ensures var c2: byte := if |g| > 1 then g[1] else 0;
      var c3: byte := if |g| > 2 then g[2] else 0;
      var d := Digits(g[0], c2, c3);
      var q := EncodeGroup(g);
      && |q| == 4
      && SextetOf(q[0]) == d[0] && 0 <= IndexOf(q[0]) < 64
      && SextetOf(q[1]) == d[1] && 0 <= IndexOf(q[1]) < 64
      && (|g| > 1 ==> SextetOf(q[2]) == d[2] && 0 <= IndexOf(q[2]) < 64)
      && (|g| > 2 ==> SextetOf(q[3]) == d[3] && 0 <= IndexOf(q[3]) < 64)
      && (|g| == 1 <==> IndexOf(q[2]) == 64)
      && (|g| <= 2 <==> IndexOf(q[3]) == 64)
  {
    var c2: byte := if |g| > 1 then g[1] else 0;
    var c3: byte := if |g| > 2 then g[2] else 0;
    var d := Digits(g[0], c2, c3);
    SextetOfKeyStr(d[0]);
    SextetOfKeyStr(d[1]);
    SextetOfKeyStr(d[2]);
    SextetOfKeyStr(d[3]);
    IndexOfKeyStr(64);
  }

  /** Four symbols decode to the three bytes their indices make. */
  lemma DecodeFull(q: string, e1: nat, e2: nat, e3: nat, e4: nat, c1: byte, c2: byte, c3: byte)
    requires |q| == 4
    requires 0 <= IndexOf(q[0]) < 64 && 0 <= IndexOf(q[1]) < 64
    requires 0 <= IndexOf(q[2]) < 64 && 0 <= IndexOf(q[3]) < 64
    requires SextetOf(q[0]) == e1 && SextetOf(q[1]) == e2 && SextetOf(q[2]) == e3 && SextetOf(q[3]) == e4
    requires e1 * 4 + e2 / 16 == c1 && (e2 % 16) * 16 + e3 / 4 == c2 && (e3 % 4) * 64 + e4 == c3
    ensures DecodeGroup(q) == Some([c1, c2, c3])
  {
  }

  /** Three symbols and `=` decode to the two bytes their indices make. */
  lemma DecodePadded(q: string, e1: nat, e2: nat, e3: nat, c1: byte, c2: byte)
    requires |q| == 4
    requires 0 <= IndexOf(q[0]) < 64 && 0 <= IndexOf(q[1]) < 64 && 0 <= IndexOf(q[2]) < 64
    requires IndexOf(q[3]) == 64
    requires SextetOf(q[0]) == e1 && SextetOf(q[1]) == e2 && SextetOf(q[2]) == e3
    requires e1 * 4 + e2 / 16 == c1 && (e2 % 16) * 16 + e3 / 4 == c2
    ensures DecodeGroup(q) == Some([c1, c2])
  {
  }

  /** Two symbols and `==` decode to the byte their indices make. */
  lemma DecodeDoublyPadded(q: string, e1: nat, e2: nat, c1: byte)
    requires |q| == 4
    requires 0 <= IndexOf(q[0]) < 64 && 0 <= IndexOf(q[1]) < 64
    requires IndexOf(q[2]) == 64 && IndexOf(q[3]) == 64
    requires SextetOf(q[0]) == e1 && SextetOf(q[1]) == e2
    requires e1 * 4 + e2 / 16 == c1
    ensures DecodeGroup(q) == Some([c1])
  {
  }

  /** A group of one byte decodes back to that byte. */
  lemma OneByteRoundTrip(c1: byte)
    ensures DecodeGroup(EncodeGroup([c1])) == Some([c1])
  {
    var d := Digits(c1, 0, 0);
    GroupSymbols([c1]);
    Unsplit(c1, 0, 0);
    DecodeDoublyPadded(EncodeGroup([c1]), d[0], d[1], c1);
  }

  /** A group of two bytes decodes back to those bytes. */
  lemma TwoBytesRoundTrip(c1: byte, c2: byte)
    ensures DecodeGroup(EncodeGroup([c1, c2])) == Some([c1, c2])
  {
    var d := Digits(c1, c2, 0);
    GroupSymbols([c1, c2]);
    Unsplit(c1, c2, 0);
    DecodePadded(EncodeGroup([c1, c2]), d[0], d[1], d[2], c1, c2);
  }

  /** A group of three bytes decodes back to those bytes. */
  lemma ThreeBytesRoundTrip(c1: byte, c2: byte, c3: byte)
    ensures DecodeGroup(EncodeGroup([c1, c2, c3])) == Some([c1, c2, c3])
  {
    var d := Digits(c1, c2, c3);
    GroupSymbols([c1, c2, c3]);
    Unsplit(c1, c2, c3);
    DecodeFull(EncodeGroup([c1, c2, c3]), d[0], d[1], d[2], d[3], c1, c2, c3);
  }

  /** Decoding an encoded group gives the group back. */
  lemma GroupRoundTrip(g: seq<byte>)
    requires 1 <= |g| <= 3
    ensures DecodeGroup(EncodeGroup(g)) == Some(g)
  {
    if |g| == 1 {
      OneByteRoundTrip(g[0]);
      assert [g[0]] == g;
    } else if |g| == 2 {
      TwoBytesRoundTrip(g[0], g[1]);
      assert [g[0], g[1]] == g;
    } else {
      ThreeBytesRoundTrip(g[0], g[1], g[2]);
      assert [g[0], g[1], g[2]] == g;
    }
  }

  /** Decoding the encoding of any byte sequence gives it back. */
  lemma {:induction false} RoundTrip(s: seq<byte>)
    ensures Decode(Encoding(s)) == Some(s)
    decreases |s|
  {
    if 1 <= |s| <= 3 {
      GroupRoundTrip(s);
      var e := Encoding(s);
      assert e[..4] == EncodeGroup(s);
      assert e[4..] == [];
      assert s + [] == s;
    } else if |s| > 3 {
      var e := Encoding(s);
      GroupRoundTrip(s[..3]);
      RoundTrip(s[3..]);
      assert e[..4] == EncodeGroup(s[..3]);
      assert e[4..] == Encoding(s[3..]);
      assert s[..3] + s[3..] == s;
    }
  }
}
