/** Well-formed UTF-8 text, as the grammar in section 4 of RFC 3629 has it. */
module Utf8 {
  import opened BigEndian

  predicate IsTail(b: byte) {
    0x80 <= b <= 0xBF
  }

  /** The length of the character `s` starts with, or 0 if there is none. */
  function CharacterLength(s: seq<byte>): (n: nat)
    ensures n <= |s|
  {
    if |s| >= 1 && s[0] <= 0x7F then 1
    else if |s| >= 2 && 0xC2 <= s[0] <= 0xDF && IsTail(s[1]) then 2
    else if |s| >= 3 && IsTail(s[2]) && (
      || (s[0] == 0xE0 && 0xA0 <= s[1] <= 0xBF)
      || (0xE1 <= s[0] <= 0xEC && IsTail(s[1]))
      || (s[0] == 0xED && 0x80 <= s[1] <= 0x9F)
      || (0xEE <= s[0] <= 0xEF && IsTail(s[1]))) then 3
    else if |s| >= 4 && IsTail(s[2]) && IsTail(s[3]) && (
      || (s[0] == 0xF0 && 0x90 <= s[1] <= 0xBF)
      || (0xF1 <= s[0] <= 0xF3 && IsTail(s[1]))
      || (s[0] == 0xF4 && 0x80 <= s[1] <= 0x8F)) then 4
    else 0
  }

  predicate IsValid(s: seq<byte>)
    decreases |s|
  {
    s == [] || (CharacterLength(s) > 0 && IsValid(s[CharacterLength(s)..]))
  }

  // ----- the valid texts are the encodings of Unicode scalar values -----

  type Scalar = c: int | 0 <= c <= 0xD7FF || 0xE000 <= c <= 0x10FFFF

  /** Section 3 of RFC 3629. */
  function EncodeScalar(c: Scalar): (s: seq<byte>)
    ensures 1 <= |s| <= 4
  {
    if c < 0x80 then [c]
    else if c < 0x800 then [0xC0 + c / 0x40, 0x80 + c % 0x40]
    else if c < 0x1_0000 then [0xE0 + c / 0x1000, 0x80 + c / 0x40 % 0x40, 0x80 + c % 0x40]
    else [0xF0 + c / 0x4_0000, 0x80 + c / 0x1000 % 0x40, 0x80 + c / 0x40 % 0x40, 0x80 + c % 0x40]
  }

  function EncodeText(cs: seq<Scalar>): seq<byte> {
    if cs == [] then [] else EncodeScalar(cs[0]) + EncodeText(cs[1..])
  }

  lemma ScalarIsCharacter(c: Scalar, rest: seq<byte>)
    ensures CharacterLength(EncodeScalar(c) + rest) == |EncodeScalar(c)|
  {
  }

  /** The digits of a number to the base 64. */
  lemma Digits(a: nat, b: nat, c: nat, d: nat)
    requires b < 0x40 && c < 0x40 && d < 0x40
    ensures var n := ((a * 0x40 + b) * 0x40 + c) * 0x40 + d;
            n % 0x40 == d && n / 0x40 % 0x40 == c && n / 0x1000 % 0x40 == b && n / 0x4_0000 == a
  {
    var n2 := a * 0x40 + b;
    var n1 := n2 * 0x40 + c;
    var n := n1 * 0x40 + d;
    assert n / 0x40 == n1 && n1 / 0x40 == n2 && n2 / 0x40 == a;
    assert n / 0x1000 == n2 && n / 0x4_0000 == a;
  }

  lemma CharacterIsScalar(s: seq<byte>) returns (c: Scalar)
    requires CharacterLength(s) > 0
    ensures s[..CharacterLength(s)] == EncodeScalar(c)
  {
    if CharacterLength(s) == 1 {
      c := s[0];
    } else if CharacterLength(s) == 2 {
      c := TwoBytes(s[0], s[1]);
    } else if CharacterLength(s) == 3 {
      c := ThreeBytes(s[0], s[1], s[2]);
    } else {
      c := FourBytes(s[0], s[1], s[2], s[3]);
    }
  }

  lemma TwoBytes(first: int, second: int) returns (c: Scalar)
    requires 0xC2 <= first <= 0xDF && 0x80 <= second <= 0xBF
    ensures EncodeScalar(c) == [first, second]
  {
    Digits(0, 0, first - 0xC0, second - 0x80);
    c := (first - 0xC0) * 0x40 + (second - 0x80);
  }

  lemma ThreeBytes(first: int, second: int, third: int) returns (c: Scalar)
    requires 0xE0 <= first <= 0xEF && 0x80 <= second <= 0xBF && 0x80 <= third <= 0xBF
    requires (first == 0xE0 ==> 0xA0 <= second) && (first == 0xED ==> second <= 0x9F)
    ensures EncodeScalar(c) == [first, second, third]
  {
    Digits(0, first - 0xE0, second - 0x80, third - 0x80);
    c := ((first - 0xE0) * 0x40 + (second - 0x80)) * 0x40 + (third - 0x80);
  }

  lemma FourBytes(first: int, second: int, third: int, fourth: int) returns (c: Scalar)
    requires 0xF0 <= first <= 0xF4 && 0x80 <= second <= 0xBF && 0x80 <= third <= 0xBF && 0x80 <= fourth <= 0xBF
    requires (first == 0xF0 ==> 0x90 <= second) && (first == 0xF4 ==> second <= 0x8F)
    ensures EncodeScalar(c) == [first, second, third, fourth]
  {
    Digits(first - 0xF0, second - 0x80, third - 0x80, fourth - 0x80);
    c := (((first - 0xF0) * 0x40 + (second - 0x80)) * 0x40 + (third - 0x80)) * 0x40 + (fourth - 0x80);
  }

  lemma {:induction false} EncodedIsValid(cs: seq<Scalar>)
    ensures IsValid(EncodeText(cs))
    decreases |cs|
  {
    if cs != [] {
      var first, rest := EncodeScalar(cs[0]), EncodeText(cs[1..]);
      ScalarIsCharacter(cs[0], rest);
      EncodedIsValid(cs[1..]);
      assert (first + rest)[|first|..] == rest;
    }
  }

  lemma {:induction false} ValidIsEncoded(s: seq<byte>) returns (cs: seq<Scalar>)
    requires IsValid(s)
    ensures EncodeText(cs) == s
    decreases |s|
  {
    if s == [] {
      cs := [];
    } else {
      var n := CharacterLength(s);
      var c := CharacterIsScalar(s);
      var more := ValidIsEncoded(s[n..]);
      cs := [c] + more;
      assert cs[1..] == more && s == s[..n] + s[n..];
    }
  }

  /** A text is valid if and only if it encodes some Unicode scalar values. */
  lemma ValidExactly(s: seq<byte>)
    ensures IsValid(s) <==> exists cs :: EncodeText(cs) == s
  {
    if IsValid(s) {
      var cs := ValidIsEncoded(s);
      assert EncodeText(cs) == s;
    }
    forall cs | EncodeText(cs) == s
      ensures IsValid(s)
    {
      EncodedIsValid(cs);
    }
  }
}
