/**
 Strings on the wire: the byte table that says what UTF-8 is agrees with the encoding itself. A byte string is
 accepted exactly when it encodes some sequence of Unicode scalar values (section 3 of RFC 3629).
 */
module Utf8Laws {
  import opened Wire

  /** A Unicode code point that is not a surrogate. */
  type Scalar = c: int | 0 <= c < 0xD800 || 0xE000 <= c < 0x110000

  function CharBytes(c: Scalar): (b: seq<Byte>)
    ensures 1 <= |b| <= 4
  {
    if c < 0x80 then [c]
    else if c < 0x800 then [0xC0 + c / 64, 0x80 + c % 64]
    else if c < 0x10000 then [0xE0 + c / 4096, 0x80 + c / 64 % 64, 0x80 + c % 64]
    else [0xF0 + c / 262144, 0x80 + c / 4096 % 64, 0x80 + c / 64 % 64, 0x80 + c % 64]
  }

  function Encoded(cs: seq<Scalar>): seq<Byte> {
    if cs == [] then [] else CharBytes(cs[0]) + Encoded(cs[1..])
  }

  /** The base-64 digits of a number. */
  lemma Digits(a: nat, b: nat, c: nat, d: nat)
    requires b < 64 && c < 64 && d < 64
    ensures var x := a * 262144 + b * 4096 + c * 64 + d;
            x / 262144 == a && x / 4096 == a * 64 + b && x / 64 == a * 4096 + b * 64 + c && x % 64 == d
            && x / 4096 % 64 == b && x / 64 % 64 == c
  {
    var x := a * 262144 + b * 4096 + c * 64 + d;
    assert x / 64 == a * 4096 + b * 64 + c;
    assert x / 64 / 64 == a * 64 + b == x / 4096;
    assert x / 4096 / 64 == a == x / 262144;
  }

  /** What the table calls a character is one. */
  lemma CharHere(s: seq<Byte>, i: nat) returns (c: Scalar)
    requires i < |s| && CharLen(s, i) > 0
    ensures s[i..i + CharLen(s, i)] == CharBytes(c)
  {
    var n := CharLen(s, i);
    if n == 1 {
      c := s[i];
    } else if n == 2 {
      c := CharOfTwo(s[i], s[i + 1]);
    } else if n == 3 {
      c := CharOfThree(s[i], s[i + 1], s[i + 2]);
    } else {
      c := CharOfFour(s[i], s[i + 1], s[i + 2], s[i + 3]);
    }
  }

  lemma CharOfTwo(b0: Byte, b1: Byte) returns (c: Scalar)
    requires 0xC2 <= b0 <= 0xDF && 0x80 <= b1 <= 0xBF
    ensures CharBytes(c) == [b0, b1]
  {
    var (x0: int, x1: int) := (b0 - 0xC0, b1 - 0x80);
    Digits(0, 0, x0, x1);
    c := x0 * 64 + x1;
  }

  lemma CharOfThree(b0: Byte, b1: Byte, b2: Byte) returns (c: Scalar)
    requires 0xE0 <= b0 <= 0xEF && 0x80 <= b1 <= 0xBF && 0x80 <= b2 <= 0xBF
    requires (b0 == 0xE0 ==> b1 >= 0xA0) && (b0 == 0xED ==> b1 <= 0x9F)
    ensures CharBytes(c) == [b0, b1, b2]
  {
    var (x0: int, x1: int, x2: int) := (b0 - 0xE0, b1 - 0x80, b2 - 0x80);
    Digits(0, x0, x1, x2);
    c := x0 * 4096 + x1 * 64 + x2;
  }

  lemma CharOfFour(b0: Byte, b1: Byte, b2: Byte, b3: Byte) returns (c: Scalar)
    requires 0xF0 <= b0 <= 0xF4 && 0x80 <= b1 <= 0xBF && 0x80 <= b2 <= 0xBF && 0x80 <= b3 <= 0xBF
    requires (b0 == 0xF0 ==> b1 >= 0x90) && (b0 == 0xF4 ==> b1 <= 0x8F)
    ensures CharBytes(c) == [b0, b1, b2, b3]
  {
    var (x0: int, x1: int, x2: int, x3: int) := (b0 - 0xF0, b1 - 0x80, b2 - 0x80, b3 - 0x80);
    Digits(x0, x1, x2, x3);
    c := x0 * 262144 + x1 * 4096 + x2 * 64 + x3;
  }

  /** And the table knows every character. */
  lemma CharKnown(s: seq<Byte>, i: nat, c: Scalar)
    requires i + |CharBytes(c)| <= |s| && s[i..i + |CharBytes(c)|] == CharBytes(c)
    ensures CharLen(s, i) == |CharBytes(c)|
  {
    var b := CharBytes(c);
    forall k | 0 <= k < |b| ensures s[i + k] == b[k] {
      assert s[i..i + |b|][k] == b[k];
    }
  }

  lemma {:induction false} CharsAreEncoded(s: seq<Byte>, i: nat) returns (cs: seq<Scalar>)
    requires i <= |s| && CharsFrom(s, i)
    ensures s[i..] == Encoded(cs)
    decreases |s| - i
  {
    cs := [];
    if i < |s| {
      var c := CharHere(s, i);
      var rest := CharsAreEncoded(s, i + CharLen(s, i));
      cs := [c] + rest;
      assert cs[1..] == rest;
      assert s[i..] == s[i..i + CharLen(s, i)] + s[i + CharLen(s, i)..];
    }
  }

  lemma {:induction false} EncodedAreChars(s: seq<Byte>, i: nat, cs: seq<Scalar>)
    requires i <= |s| && s[i..] == Encoded(cs)
    ensures CharsFrom(s, i)
    decreases |cs|
  {
    hide CharLen, CharBytes;
    if cs != [] {
      var b := CharBytes(cs[0]);
      assert s[i..] == b + Encoded(cs[1..]);
      assert s[i..i + |b|] == s[i..][..|b|] == b;
      assert s[i + |b|..] == s[i..][|b|..] == Encoded(cs[1..]);
      CharKnown(s, i, cs[0]);
      EncodedAreChars(s, i + |b|, cs[1..]);
    } else {
      assert |s[i..]| == 0;
    }
  }

  /** A byte string is UTF-8 if and only if it encodes a sequence of Unicode scalar values. */
  lemma Utf8Iff(s: seq<Byte>)
    ensures IsUtf8(s) <==> exists cs: seq<Scalar> :: s == Encoded(cs)
  {
    assert s[0..] == s;
    if IsUtf8(s) {
      var cs := CharsAreEncoded(s, 0);
      assert s == Encoded(cs);
    }
    if cs: seq<Scalar> :| s == Encoded(cs) {
      EncodedAreChars(s, 0, cs);
    }
  }
}
