/** UTF-8 from first principles: the bytes of a scalar value by arithmetic, and that `ValidUtf8` accepts exactly the
    concatenations of such bytes. */
module Utf8 {
  import opened Bytes

  /** A Unicode scalar value: a code point that is not a surrogate. */
  predicate IsScalar(c: nat) {
    c <= 0x10FFFF && !(0xD800 <= c <= 0xDFFF)
  }

  /** Six bits per continuation byte, the rest behind a mark of the length in the first byte. */
  function EncodeScalar(c: nat): (b: Bytes)
    requires IsScalar(c)
    ensures 1 <= |b| <= 4
  {
    if c < 0x80 then [c]
    else if c < 0x800 then [0xC0 + c / 64, 0x80 + c % 64]
    else if c < 0x10000 then [0xE0 + c / 4096, 0x80 + c / 64 % 64, 0x80 + c % 64]
    else [0xF0 + c / 262144, 0x80 + c / 4096 % 64, 0x80 + c / 64 % 64, 0x80 + c % 64]
  }

  predicate AllScalars(cs: seq<nat>) {
    forall i :: 0 <= i < |cs| ==> IsScalar(cs[i])
  }

  function EncodeText(cs: seq<nat>): Bytes
    requires AllScalars(cs)
  {
    if cs == [] then [] else EncodeScalar(cs[0]) + EncodeText(cs[1..])
  }

  /** One scalar value in front keeps a string valid. */
  lemma ScalarThen(c: nat, rest: Bytes)
    requires IsScalar(c) && ValidUtf8(rest)
    ensures ValidUtf8(EncodeScalar(c) + rest)
  {
    var s := EncodeScalar(c) + rest;
    assert s[|EncodeScalar(c)|..] == rest;
    ScalarLead(c);
    if c < 0x80 {
      assert s[0] == c;
    } else if c < 0x800 {
      assert s[0] == 0xC0 + c / 64 && s[1] == 0x80 + c % 64;
    } else if c < 0x10000 {
      assert s[0] == 0xE0 + c / 4096 && s[1] == 0x80 + c / 64 % 64 && s[2] == 0x80 + c % 64;
    } else {
      assert s[0] == 0xF0 + c / 262144 && s[1] == 0x80 + c / 4096 % 64;
      assert s[2] == 0x80 + c / 64 % 64 && s[3] == 0x80 + c % 64;
    }
  }

  lemma ScalarLead(c: nat)
    requires IsScalar(c)
    ensures 0x80 <= c < 0x800 ==> 0xC2 <= 0xC0 + c / 64 <= 0xDF
    ensures 0x800 <= c < 0x10000 ==> Lead3(0xE0 + c / 4096, 0x80 + c / 64 % 64)
    ensures 0x10000 <= c ==> Lead4(0xF0 + c / 262144, 0x80 + c / 4096 % 64)
  {
  }

  /** A valid string that is not empty begins with a scalar value. */
  lemma FirstScalar(s: Bytes) returns (c: nat)
    requires s != [] && ValidUtf8(s)
    ensures IsScalar(c) && EncodeScalar(c) <= s && ValidUtf8(s[|EncodeScalar(c)|..])
  {
    if s[0] < 0x80 {
      c := s[0];
    } else if s[0] <= 0xDF {
      c := Two(s[0], s[1]);
      assert EncodeScalar(c) == s[..2];
    } else if s[0] <= 0xEF {
      c := Three(s[0], s[1], s[2]);
      assert EncodeScalar(c) == s[..3];
    } else {
      c := Four(s[0], s[1], s[2], s[3]);
      assert EncodeScalar(c) == s[..4];
    }
  }

  lemma Two(x: int, y: int) returns (c: nat)
    requires 0xC2 <= x <= 0xDF && 0x80 <= y <= 0xBF
    ensures 0x80 <= c < 0x800 && 0xC0 + c / 64 == x && 0x80 + c % 64 == y
  {
    c := (x - 0xC0) * 64 + (y - 0x80);
  }

  lemma Three(x: int, y: int, z: byte) returns (c: nat)
    requires 0 <= x < 256 && 0 <= y < 256 && Lead3(x, y) && Continuation(z)
    ensures IsScalar(c) && 0x800 <= c < 0x10000
    ensures 0xE0 + c / 4096 == x && 0x80 + c / 64 % 64 == y && 0x80 + c % 64 == z
  {
    c := Six((x - 0xE0) * 64 + (y - 0x80), z);
    assert c / 4096 == x - 0xE0;
  }

  lemma Four(x: int, y: int, z: int, w: byte) returns (c: nat)
    requires 0 <= x < 256 && 0 <= y < 256 && Lead4(x, y) && 0x80 <= z <= 0xBF && Continuation(w)
    ensures IsScalar(c) && 0x10000 <= c
    ensures 0xF0 + c / 262144 == x && 0x80 + c / 4096 % 64 == y && 0x80 + c / 64 % 64 == z && 0x80 + c % 64 == w
  {
    var top: nat := (x - 0xF0) * 64 + (y - 0x80);
    c := Six(top * 64 + (z - 0x80), w);
    assert c / 4096 == top;
    assert c / 262144 == x - 0xF0;
  }

  /** Six more bits behind `top`. */
  lemma Six(top: nat, y: int) returns (c: nat)
    requires 0x80 <= y <= 0xBF
    ensures c == top * 64 + (y - 0x80) && c / 64 == top && c % 64 == y - 0x80
  {
    c := top * 64 + (y - 0x80);
  }

  lemma {:induction false} EncodedIsValid(cs: seq<nat>)
    requires AllScalars(cs)
    ensures ValidUtf8(EncodeText(cs))
  {
    hide ValidUtf8, EncodeScalar;
    if cs == [] {
      NothingIsValid();
    } else {
      EncodedIsValid(cs[1..]);
      ScalarThen(cs[0], EncodeText(cs[1..]));
    }
  }

  lemma {:induction false} ValidIsEncoded(s: Bytes) returns (cs: seq<nat>)
    requires ValidUtf8(s)
    ensures AllScalars(cs) && EncodeText(cs) == s
    decreases |s|
  {
    hide ValidUtf8, EncodeScalar;
    if s == [] {
      cs := [];
    } else {
      var c := FirstScalar(s);
      var rest := ValidIsEncoded(s[|EncodeScalar(c)|..]);
      cs := [c] + rest;
      assert cs[1..] == rest;
      assert s == EncodeScalar(c) + s[|EncodeScalar(c)|..];
    }
  }

  /** A byte string is valid if and only if it is the text of some scalar values. */
  lemma Utf8Exact(s: Bytes)
    ensures ValidUtf8(s) <==> exists cs: seq<nat> :: AllScalars(cs) && EncodeText(cs) == s
  {
    hide ValidUtf8, EncodeText;
    if ValidUtf8(s) {
      var cs := ValidIsEncoded(s);
    }
    forall cs: seq<nat> | AllScalars(cs) && EncodeText(cs) == s ensures ValidUtf8(s) {
      EncodedIsValid(cs);
    }
  }

  /** The euro sign, three bytes. */
  lemma EuroSign()
    ensures EncodeScalar(0x20AC) == [0xE2, 0x82, 0xAC] && ValidUtf8([0xE2, 0x82, 0xAC])
  {
    NothingIsValid();
    ScalarThen(0x20AC, []);
    assert EncodeScalar(0x20AC) + [] == [0xE2, 0x82, 0xAC];
  }
}
