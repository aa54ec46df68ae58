/** Which byte strings are valid UTF-8 (RFC 3629, section 4). */
module Utf8 {
  import opened Basics

  predicate Tail(b: byte) {
    0x80 <= b <= 0xBF
  }

  /** Length of the well-formed character at the front of `s`, zero if there is none. */
  function CharLength(s: bytes): (n: nat)
    ensures n <= |s| && n <= 4
  {
    if |s| >= 1 && s[0] <= 0x7F then 1
    else if |s| >= 2 && 0xC2 <= s[0] <= 0xDF && Tail(s[1]) then 2
    else if |s| >= 3 && Tail(s[2]) && (
              || (s[0] == 0xE0 && 0xA0 <= s[1] <= 0xBF)
              || (0xE1 <= s[0] <= 0xEC && Tail(s[1]))
              || (s[0] == 0xED && 0x80 <= s[1] <= 0x9F)
              || (0xEE <= s[0] <= 0xEF && Tail(s[1]))) then 3
    else if |s| >= 4 && Tail(s[2]) && Tail(s[3]) && (
              || (s[0] == 0xF0 && 0x90 <= s[1] <= 0xBF)
              || (0xF1 <= s[0] <= 0xF3 && Tail(s[1]))
              || (s[0] == 0xF4 && 0x80 <= s[1] <= 0x8F)) then 4
    else 0
  }

  predicate Valid(s: bytes) {
    s == [] || (CharLength(s) > 0 && Valid(s[CharLength(s)..]))
  }

  lemma {:induction false} AsciiValid(s: bytes)
    requires forall i :: 0 <= i < |s| ==> s[i] <= 0x7F
    ensures Valid(s)
  {
    if s != [] {
      AsciiValid(s[1..]);
    }
  }

  // ---------- the same, from the code points ----------

  type Scalar = c: int | 0 <= c <= 0x10FFFF && !(0xD800 <= c <= 0xDFFF)

  /** Six bits to every tail byte, the rest in the first byte. */
  function EncodeScalar(c: Scalar): bytes {
    if c < 0x80 then [c]
    else if c < 0x800 then [0xC0 + c / 0x40, 0x80 + c % 0x40]
    else if c < 0x1_0000 then [0xE0 + c / 0x40 / 0x40, 0x80 + c / 0x40 % 0x40, 0x80 + c % 0x40]
    else [0xF0 + c / 0x40 / 0x40 / 0x40, 0x80 + c / 0x40 / 0x40 % 0x40, 0x80 + c / 0x40 % 0x40, 0x80 + c % 0x40]
  }

  function EncodeAll(cs: seq<Scalar>): bytes {
    if cs == [] then [] else EncodeScalar(cs[0]) + EncodeAll(cs[1..])
  }

  lemma EncodedLength(c: Scalar, rest: bytes)
    ensures CharLength(EncodeScalar(c) + rest) == |EncodeScalar(c)|
  {
    ScalarLength(c);
    LengthByPrefix(EncodeScalar(c), EncodeScalar(c) + rest);
  }

  lemma LengthByPrefix(head: bytes, s: bytes)
    requires head <= s && CharLength(head) > 0
    ensures CharLength(s) == CharLength(head)
  {
  }

  lemma ScalarLength(c: Scalar)
    ensures CharLength(EncodeScalar(c)) == |EncodeScalar(c)|
  {
    if 0x800 <= c < 0x1_0000 {
      ThreeLength(c / 0x40 / 0x40, c / 0x40 % 0x40, c % 0x40);
    } else if 0x1_0000 <= c {
      FourLength(c / 0x40 / 0x40 / 0x40, c / 0x40 / 0x40 % 0x40, c / 0x40 % 0x40, c % 0x40);
    }
  }

  lemma ThreeLength(h: nat, m: nat, l: nat)
    requires m < 0x40 && l < 0x40 && 0x800 <= (h * 0x40 + m) * 0x40 + l < 0x1_0000
    requires !(0xD800 <= (h * 0x40 + m) * 0x40 + l <= 0xDFFF)
    ensures h < 0x10 && CharLength([0xE0 + h, 0x80 + m, 0x80 + l]) == 3
  {
  }

  lemma FourLength(h: nat, m: nat, k: nat, l: nat)
    requires m < 0x40 && k < 0x40 && l < 0x40 && 0x1_0000 <= ((h * 0x40 + m) * 0x40 + k) * 0x40 + l <= 0x10FFFF
    ensures h < 5 && CharLength([0xF0 + h, 0x80 + m, 0x80 + k, 0x80 + l]) == 4
  {
  }

  lemma Split(high: nat, low: nat)
    requires low < 0x40
    ensures (high * 0x40 + low) / 0x40 == high && (high * 0x40 + low) % 0x40 == low
  {
  }

  /** The scalar of a two-byte character, and so on. */
  lemma TwoBytes(a: byte, b: byte) returns (c: Scalar)
    requires 0xC2 <= a <= 0xDF && Tail(b)
    ensures EncodeScalar(c) == [a, b]
  {
    c := (a as int - 0xC0) * 0x40 + (b as int - 0x80);
    Split(a as int - 0xC0, b as int - 0x80);
  }

  lemma ThreeBytes(a: byte, b: byte, d: byte) returns (c: Scalar)
    requires 0xE0 <= a <= 0xEF && Tail(b) && Tail(d) && (a == 0xE0 ==> b >= 0xA0) && (a == 0xED ==> b <= 0x9F)
    ensures EncodeScalar(c) == [a, b, d]
  {
    var h, m, l := a as int - 0xE0, b as int - 0x80, d as int - 0x80;
    Split(h, m);
    Split(h * 0x40 + m, l);
    c := (h * 0x40 + m) * 0x40 + l;
  }

  lemma FourBytes(a: byte, b: byte, d: byte, e: byte) returns (c: Scalar)
    requires 0xF0 <= a <= 0xF4 && Tail(b) && Tail(d) && Tail(e) && (a == 0xF0 ==> b >= 0x90) && (a == 0xF4 ==> b <= 0x8F)
    ensures EncodeScalar(c) == [a, b, d, e]
  {
    var h, m, k, l := a as int - 0xF0, b as int - 0x80, d as int - 0x80, e as int - 0x80;
    Split(h, m);
    Split(h * 0x40 + m, k);
    Split((h * 0x40 + m) * 0x40 + k, l);
    c := ((h * 0x40 + m) * 0x40 + k) * 0x40 + l;
  }

  lemma FirstScalar(s: bytes) returns (c: Scalar)
    requires CharLength(s) > 0
    ensures s[..CharLength(s)] == EncodeScalar(c)
  {
    var n := CharLength(s);
    if n == 1 {
      c := s[0];
    } else if n == 2 {
      c := TwoBytes(s[0], s[1]);
    } else if n == 3 {
      c := ThreeBytes(s[0], s[1], s[2]);
    } else {
      c := FourBytes(s[0], s[1], s[2], s[3]);
    }
  }

  lemma {:induction false} EncodedIsValid(cs: seq<Scalar>)
    ensures Valid(EncodeAll(cs))
  {
    if cs != [] {
      EncodedIsValid(cs[1..]);
      EncodedLength(cs[0], EncodeAll(cs[1..]));
      assert EncodeAll(cs)[|EncodeScalar(cs[0])|..] == EncodeAll(cs[1..]);
    }
  }

  lemma {:induction false} ScalarsOf(s: bytes) returns (cs: seq<Scalar>)
    requires Valid(s)
    ensures s == EncodeAll(cs)
  {
    cs := [];
    if s != [] {
      var n := CharLength(s);
      var c := FirstScalar(s);
      var rest := ScalarsOf(s[n..]);
      cs := [c] + rest;
      assert s == s[..n] + s[n..];
    }
  }

  /** The valid strings are exactly the encodings of sequences of Unicode scalar values. */
  lemma ValidIff(s: bytes)
    ensures Valid(s) <==> exists cs: seq<Scalar> :: s == EncodeAll(cs)
  {
    if Valid(s) {
      var cs := ScalarsOf(s);
    }
    if cs: seq<Scalar> :| s == EncodeAll(cs) {
      EncodedIsValid(cs);
    }
  }
}
