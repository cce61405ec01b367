/** The strict UTF-8 decoder (src/util/text.cpp:14-89), against RFC 3629.

    The C++ masks are written with `/` and `%`: `b & 0x3F` is `b % 64`, `(b & 0xC0) == 0x80` is
    `b / 64 == 2`, and `x << 6` is `x * 64`. */
module Utf8 {
  import opened Bytes

  datatype Decoded = Malformed | Scalar(codepoint: nat, length: nat)

  predicate Tail(b: Byte) {
    b / 64 == 2
  }

  function DecodeUtf8At(input: Str, i: nat): (d: Decoded) {
    if i >= |input| then Malformed
    else
      var b0 := input[i];
      if b0 < 0x80 then Scalar(b0 as nat, 1)
      else if 0xC2 <= b0 <= 0xDF then
        if i + 1 >= |input| then Malformed
        else
          var b1 := input[i + 1];
          if !Tail(b1) then Malformed
          else Scalar((b0 as nat % 32) * 64 + b1 as nat % 64, 2)
      else if 0xE0 <= b0 <= 0xEF then
        if i + 2 >= |input| then Malformed
        else
          var b1, b2 := input[i + 1], input[i + 2];
          if !Tail(b1) || !Tail(b2) then Malformed
          else if b0 == 0xE0 && b1 < 0xA0 then Malformed
          else if b0 == 0xED && b1 >= 0xA0 then Malformed
          else Scalar((b0 as nat % 16) * 4096 + (b1 as nat % 64) * 64 + b2 as nat % 64, 3)
      else if 0xF0 <= b0 <= 0xF4 then
        if i + 3 >= |input| then Malformed
        else
          var b1, b2, b3 := input[i + 1], input[i + 2], input[i + 3];
          if !Tail(b1) || !Tail(b2) || !Tail(b3) then Malformed
          else if b0 == 0xF0 && b1 < 0x90 then Malformed
          else if b0 == 0xF4 && b1 > 0x8F then Malformed
          else
            Scalar((b0 as nat % 8) * 262144 + (b1 as nat % 64) * 4096 + (b2 as nat % 64) * 64 + b3 as nat % 64, 4)
      else Malformed
  }

  /** Unicode scalar values: every code point except the surrogates. */
  predicate IsScalarValue(cp: nat) {
    cp <= 0x10FFFF && !(0xD800 <= cp <= 0xDFFF)
  }

  /** Section 3 of RFC 3629: the encoding of one code point. */
  function Encode(cp: nat): (s: Str)
    requires cp <= 0x10FFFF
  {
    if cp <= 0x7F then [cp as Byte]
    else if cp <= 0x7FF then [(0xC0 + cp / 64) as Byte, (0x80 + cp % 64) as Byte]
    else if cp <= 0xFFFF then
      [(0xE0 + cp / 4096) as Byte, (0x80 + cp / 64 % 64) as Byte, (0x80 + cp % 64) as Byte]
    else
      [(0xF0 + cp / 262144) as Byte, (0x80 + cp / 4096 % 64) as Byte, (0x80 + cp / 64 % 64) as Byte,
       (0x80 + cp % 64) as Byte]
  }

  /** Section 4 of RFC 3629: the grammar rule UTF8-char. */
  predicate IsUtf8Char(c: Str) {
    match |c|
    case 1 => c[0] <= 0x7F
    case 2 => 0xC2 <= c[0] <= 0xDF && 0x80 <= c[1] <= 0xBF
    case 3 =>
      && 0x80 <= c[2] <= 0xBF
      && (|| (c[0] == 0xE0 && 0xA0 <= c[1] <= 0xBF)
          || (0xE1 <= c[0] <= 0xEC && 0x80 <= c[1] <= 0xBF)
          || (c[0] == 0xED && 0x80 <= c[1] <= 0x9F)
          || (0xEE <= c[0] <= 0xEF && 0x80 <= c[1] <= 0xBF))
    case 4 =>
      && 0x80 <= c[2] <= 0xBF && 0x80 <= c[3] <= 0xBF
      && (|| (c[0] == 0xF0 && 0x90 <= c[1] <= 0xBF)
          || (0xF1 <= c[0] <= 0xF3 && 0x80 <= c[1] <= 0xBF)
          || (c[0] == 0xF4 && 0x80 <= c[1] <= 0x8F))
    case _ => false
  }

  /** The n bytes at i are one character of the grammar. */
  predicate CharAt(s: Str, i: nat, n: nat) {
    i + n <= |s| && IsUtf8Char(s[i..i + n])
  }

  /** The decoder succeeds exactly where the grammar does; the length is the character's, and
      encoding the code point again gives back the bytes that were read. */
  lemma DecodeExact(s: Str, i: nat)
    ensures DecodeUtf8At(s, i).Scalar? <==> exists n :: CharAt(s, i, n)
    ensures DecodeUtf8At(s, i).Scalar? ==>
              var d := DecodeUtf8At(s, i);
              CharAt(s, i, d.length) && IsScalarValue(d.codepoint) && Encode(d.codepoint) == s[i..i + d.length]
    ensures forall n :: CharAt(s, i, n) ==> DecodeUtf8At(s, i).Scalar? && DecodeUtf8At(s, i).length == n
  {
    var d := DecodeUtf8At(s, i);
    if d.Scalar? {
      DecodedIsChar(s, i);
      assert CharAt(s, i, d.length);
    }
    forall n | CharAt(s, i, n) ensures d.Scalar? && d.length == n {
      CharIsDecoded(s, i, n);
    }
  }

  lemma DecodedIsChar(s: Str, i: nat)
    requires DecodeUtf8At(s, i).Scalar?
    ensures var d := DecodeUtf8At(s, i);
            CharAt(s, i, d.length) && IsScalarValue(d.codepoint) && Encode(d.codepoint) == s[i..i + d.length]
  {
    var d := DecodeUtf8At(s, i);
    var c := s[i..i + d.length];
    match d.length {
      case 1 =>
        assert c == [s[i]];
      case 2 =>
        assert c == [s[i], s[i + 1]];
        EncodeTwo(s[i], s[i + 1]);
      case 3 =>
        assert c == [s[i], s[i + 1], s[i + 2]];
        EncodeThree(s[i], s[i + 1], s[i + 2]);
      case 4 =>
        assert c == [s[i], s[i + 1], s[i + 2], s[i + 3]];
        EncodeFour(s[i], s[i + 1], s[i + 2], s[i + 3]);
    }
  }

  lemma EncodeTwo(b0: Byte, b1: Byte)
    requires 0xC2 <= b0 <= 0xDF && Tail(b1)
    ensures var cp := (b0 as nat % 32) * 64 + b1 as nat % 64;
            IsScalarValue(cp) && Encode(cp) == [b0, b1] && IsUtf8Char([b0, b1])
  {
  }

  lemma EncodeThree(b0: Byte, b1: Byte, b2: Byte)
    requires 0xE0 <= b0 <= 0xEF && Tail(b1) && Tail(b2)
    requires (b0 == 0xE0 ==> b1 >= 0xA0) && (b0 == 0xED ==> b1 < 0xA0)
    ensures var cp := (b0 as nat % 16) * 4096 + (b1 as nat % 64) * 64 + b2 as nat % 64;
            IsScalarValue(cp) && Encode(cp) == [b0, b1, b2] && IsUtf8Char([b0, b1, b2])
  {
    LowBits(b0, 0xE0, 16);
    LowBits(b1, 0x80, 64);
    LowBits(b2, 0x80, 64);
    var x, y, z := b0 as nat - 0xE0, b1 as nat - 0x80, b2 as nat - 0x80;
    ThreeGroups(x, y, z);
  }

  lemma EncodeFour(b0: Byte, b1: Byte, b2: Byte, b3: Byte)
    requires 0xF0 <= b0 <= 0xF4 && Tail(b1) && Tail(b2) && Tail(b3)
    requires (b0 == 0xF0 ==> b1 >= 0x90) && (b0 == 0xF4 ==> b1 <= 0x8F)
    ensures var cp := (b0 as nat % 8) * 262144 + (b1 as nat % 64) * 4096 + (b2 as nat % 64) * 64 + b3 as nat % 64;
            IsScalarValue(cp) && Encode(cp) == [b0, b1, b2, b3] && IsUtf8Char([b0, b1, b2, b3])
  {
    LowBits(b0, 0xF0, 8);
    LowBits(b1, 0x80, 64);
    LowBits(b2, 0x80, 64);
    LowBits(b3, 0x80, 64);
    var w, x, y, z := b0 as nat - 0xF0, b1 as nat - 0x80, b2 as nat - 0x80, b3 as nat - 0x80;
    ThreeGroups(w * 64 + x, y, z);
    SixBitGroups(w, x);
    DivideTwice(w * 262144 + x * 4096 + y * 64 + z, 4096, 64);
  }

  lemma LowBits(b: Byte, base: nat, width: nat)
    requires (width == 64 && base == 0x80) || (width == 16 && base == 0xE0) || (width == 8 && base == 0xF0)
    requires base <= b as nat < base + width
    ensures b as nat % width == b as nat - base
  {
  }

  lemma ThreeGroups(x: nat, y: nat, z: nat)
    requires y < 64 && z < 64
    ensures var n := x * 4096 + y * 64 + z; n / 4096 == x && n / 64 % 64 == y && n % 64 == z
  {
    SixBitGroups(x * 64 + y, z);
    SixBitGroups(x, y);
    assert (x * 64 + y) * 64 + z == x * 4096 + y * 64 + z;
    DivideTwice(x * 4096 + y * 64 + z, 64, 64);
  }

  lemma SixBitGroups(high: nat, low: nat)
    requires low < 64
    ensures (high * 64 + low) / 64 == high && (high * 64 + low) % 64 == low
  {
  }

  lemma DivideTwice(n: nat, a: nat, b: nat)
    requires (a == 64 || a == 4096) && b == 64
    ensures n / a / b == n / (a * b)
  {
    if a == 64 { assert n / 64 / 64 == n / 4096; } else { assert n / 4096 / 64 == n / 262144; }
  }

  lemma CharIsDecoded(s: Str, i: nat, n: nat)
    requires CharAt(s, i, n)
    ensures DecodeUtf8At(s, i).Scalar? && DecodeUtf8At(s, i).length == n
  {
    var c := s[i..i + n];
    assert |c| == n && forall j :: 0 <= j < n ==> c[j] == s[i + j];
  }

  /** Every scalar value encodes to a character of the grammar, and decoding it anywhere in a
      string gives it back: with `DecodeExact`, encode and decode are inverse bijections. */
  lemma EncodeThenDecode(cp: nat, before: Str, after: Str)
    requires IsScalarValue(cp)
    ensures IsUtf8Char(Encode(cp))
    ensures DecodeUtf8At(before + Encode(cp) + after, |before|) == Scalar(cp, |Encode(cp)|)
  {
    var c := Encode(cp);
    var s := before + c + after;
    assert forall j :: 0 <= j < |c| ==> s[|before| + j] == c[j];
    EncodeIsChar(cp);
    assert s[|before|..|before| + |c|] == c;
    assert CharAt(s, |before|, |c|);
    CharIsDecoded(s, |before|, |c|);
    DecodedIsChar(s, |before|);
    EncodeInjective(cp, DecodeUtf8At(s, |before|).codepoint);
  }

  lemma EncodeIsChar(cp: nat)
    requires IsScalarValue(cp)
    ensures IsUtf8Char(Encode(cp))
  {
    if 0x7FF < cp <= 0xFFFF {
      DivideTwice(cp, 64, 64);
    } else if 0xFFFF < cp {
      DivideTwice(cp, 4096, 64);
    }
  }

  lemma EncodeInjective(a: nat, b: nat)
    requires a <= 0x10FFFF && b <= 0x10FFFF && Encode(a) == Encode(b)
    ensures a == b
  {
    Regroup(a);
    Regroup(b);
    var x, y := Encode(a), Encode(b);
    assert |x| == |y| && forall j :: 0 <= j < |x| ==> x[j] as nat == y[j] as nat;
  }

  lemma Regroup(n: nat)
    ensures n == n / 64 * 64 + n % 64
    ensures n == n / 4096 * 4096 + n / 64 % 64 * 64 + n % 64
    ensures n == n / 262144 * 262144 + n / 4096 % 64 * 4096 + n / 64 % 64 * 64 + n % 64
  {
    DivideTwice(n, 64, 64);
    DivideTwice(n, 4096, 64);
  }

  /** Decoding looks only at the bytes from i on. */
  lemma DecodeSuffix(p: Str, s: Str, i: nat)
    ensures DecodeUtf8At(p + s, |p| + i) == DecodeUtf8At(s, i)
  {
    assert forall j :: 0 <= j < |s| ==> (p + s)[|p| + j] == s[j];
  }

  predicate IsCjkCodepoint(cp: nat) {
    || 0x3400 <= cp <= 0x4DBF || 0x4E00 <= cp <= 0x9FFF || 0xF900 <= cp <= 0xFAFF
    || 0x20000 <= cp <= 0x2A6DF || 0x2A700 <= cp <= 0x2B73F || 0x2B740 <= cp <= 0x2B81F
    || 0x2B820 <= cp <= 0x2CEAF || 0x2CEB0 <= cp <= 0x2EBEF || 0x30000 <= cp <= 0x3134F
  }
}
