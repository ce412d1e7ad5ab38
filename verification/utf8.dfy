/** What well-formed UTF-8 is, told by the characters it encodes: RFC 3629, section 3. */
module Utf8 {
  import opened Prelude
  import opened Wire

  /** A character: every code point up to the last but the surrogates. */
  predicate IsScalar(c: nat) {
    c < 0xD800 || 0xE000 <= c < 0x11_0000
  }

  function EncodeScalar(c: nat): (s: Bytes)
    requires IsScalar(c)
    ensures |s| > 0
  {
    if c < 0x80 then [c]
    else if c < 0x800 then [0xC0 + c / 64, 0x80 + c % 64]
    else if c < 0x1_0000 then [0xE0 + c / 4096, 0x80 + c / 64 % 64, 0x80 + c % 64]
    else [0xF0 + c / 262144, 0x80 + c / 4096 % 64, 0x80 + c / 64 % 64, 0x80 + c % 64]
  }

  function EncodeText(cs: seq<nat>): Bytes
    requires forall c <- cs :: IsScalar(c)
  {
    if cs == [] then [] else EncodeScalar(cs[0]) + EncodeText(cs[1..])
  }

  lemma ScalarIsValid(c: nat, rest: Bytes)
    requires IsScalar(c) && ValidUtf8(rest)
    ensures ValidUtf8(EncodeScalar(c) + rest)
  {
    var s := EncodeScalar(c) + rest;
    assert s[|EncodeScalar(c)|..] == rest;
  }

  lemma {:induction false} EncodedIsValid(cs: seq<nat>)
    requires forall c <- cs :: IsScalar(c)
    ensures ValidUtf8(EncodeText(cs))
  {
    if cs != [] {
      EncodedIsValid(cs[1..]);
      ScalarIsValid(cs[0], EncodeText(cs[1..]));
    }
  }

  /** The first character of a well-formed text. */
  lemma FirstScalar(s: Bytes) returns (c: nat)
    requires s != [] && ValidUtf8(s)
    ensures IsScalar(c) && EncodeScalar(c) <= s && ValidUtf8(s[|EncodeScalar(c)|..])
  {
    if s[0] < 0x80 {
      c := s[0];
    } else if s[0] < 0xE0 {
      c := TwoBytes(s[0], s[1]);
    } else if s[0] < 0xF0 {
      c := ThreeBytes(s[0], s[1], s[2]);
    } else {
      c := FourBytes(s[0], s[1], s[2], s[3]);
    }
  }

  lemma TwoBytes(a: u8, b: u8) returns (c: nat)
    requires 0xC2 <= a < 0xE0 && Tail(b)
    ensures IsScalar(c) && EncodeScalar(c) == [a, b]
  {
    var high: nat, low: nat := a - 0xC0, b - 0x80;
    c := high * 64 + low;
    assert c / 64 == high && c % 64 == low;
  }

  lemma ThreeBytes(a: u8, b: u8, d: u8) returns (c: nat)
    requires 0xE0 <= a < 0xF0 && Tail(b) && Tail(d) && (a == 0xE0 ==> b >= 0xA0) && (a == 0xED ==> b < 0xA0)
    ensures IsScalar(c) && EncodeScalar(c) == [a, b, d]
  {
    var high := (a - 0xE0) * 64 + (b - 0x80);
    c := high * 64 + (d - 0x80);
    assert c / 64 == high && c % 64 == d - 0x80;
    assert high / 64 == a - 0xE0 && high % 64 == b - 0x80;
    assert c / 4096 == high / 64;
  }

  lemma FourBytes(a: u8, b: u8, d: u8, e: u8) returns (c: nat)
    requires 0xF0 <= a < 0xF5 && Tail(b) && Tail(d) && Tail(e) && (a == 0xF0 ==> b >= 0x90) && (a == 0xF4 ==> b < 0x90)
    ensures IsScalar(c) && EncodeScalar(c) == [a, b, d, e]
  {
    var top := (a - 0xF0) * 64 + (b - 0x80);
    var high := top * 64 + (d - 0x80);
    c := high * 64 + (e - 0x80);
    assert c / 64 == high && c % 64 == e - 0x80;
    assert high / 64 == top && high % 64 == d - 0x80;
    assert top / 64 == a - 0xF0 && top % 64 == b - 0x80;
    assert c / 4096 == top && c / 262144 == top / 64;
  }

  lemma {:induction false} ValidIsEncoded(s: Bytes) returns (cs: seq<nat>)
    requires ValidUtf8(s)
    ensures (forall c <- cs :: IsScalar(c)) && EncodeText(cs) == s
    decreases |s|
  {
    if s == [] {
      cs := [];
    } else {
      var c := FirstScalar(s);
      var rest := ValidIsEncoded(s[|EncodeScalar(c)|..]);
      cs := [c] + rest;
      assert cs[1..] == rest;
      assert s == EncodeScalar(c) + s[|EncodeScalar(c)|..];
    }
  }

  ghost predicate IsEncodedText(s: Bytes) {
    exists cs: seq<nat> :: (forall c <- cs :: IsScalar(c)) && EncodeText(cs) == s
  }

  /** Bytes are accepted as text exactly when they are the encoding of a sequence of characters. */
  lemma ValidIffEncoded(s: Bytes)
    ensures ValidUtf8(s) <==> IsEncodedText(s)
  {
    if ValidUtf8(s) {
      var cs := ValidIsEncoded(s);
      assert IsEncodedText(s);
    }
    if IsEncodedText(s) {
      var cs: seq<nat> :| (forall c <- cs :: IsScalar(c)) && EncodeText(cs) == s;
      EncodedIsValid(cs);
    }
  }
}
