/** UTF-8, by its characters (section 1.5.4 of MQTT 5.0, RFC 3629): the text that parsers
    accept is exactly what characters are written as, and a byte below 128 in it is a
    character of its own, so that looking for `/`, `+`, `#`, `*` or the null character may
    look at bytes. */
module Utf8 {
  import opened Wire

  /** A Unicode scalar value: a code point that is not a surrogate. */
  type Scalar = c: nat | c < 0xD800 || 0xE000 <= c < 0x11_0000

  function CharBytes(c: Scalar): (b: bytes)
    ensures b != []
  {
    if c < 0x80 then [c]
    else if c < 0x800 then [0xC0 + c / 64, 0x80 + c % 64]
    else if c < 0x1_0000 then [0xE0 + c / 4096, 0x80 + c / 64 % 64, 0x80 + c % 64]
    else [0xF0 + c / 262_144, 0x80 + c / 4096 % 64, 0x80 + c / 64 % 64, 0x80 + c % 64]
  }

  function TextBytes(cs: seq<Scalar>): bytes {
    if cs == [] then [] else CharBytes(cs[0]) + TextBytes(cs[1..])
  }

  // --------------------------------------------------------------------- one character

  lemma TwoDigits(a: nat, b: nat)
    requires b < 64
    ensures (a * 64 + b) / 64 == a && (a * 64 + b) % 64 == b
  {
  }

  lemma DigitsOf3(a: nat, b: nat, d: nat)
    requires b < 64 && d < 64
    ensures var c := (a * 64 + b) * 64 + d; c / 4096 == a && c / 64 % 64 == b && c % 64 == d
  {
    TwoDigits(a * 64 + b, d);
    TwoDigits(a, b);
    var c := (a * 64 + b) * 64 + d;
    assert c == 4096 * a + (64 * b + d);
  }

  lemma DigitsOf4(e: nat, a: nat, b: nat, d: nat)
    requires a < 64 && b < 64 && d < 64
    ensures var c := ((e * 64 + a) * 64 + b) * 64 + d;
            c / 262_144 == e && c / 4096 % 64 == a && c / 64 % 64 == b && c % 64 == d
  {
    DigitsOf3(e * 64 + a, b, d);
    TwoDigits(e, a);
    var c := ((e * 64 + a) * 64 + b) * 64 + d;
    assert c == 262_144 * e + (4096 * a + 64 * b + d);
  }

  /** The character that a well-formed sequence stands for. */
  lemma CharRead(s: bytes) returns (c: Scalar)
    requires Utf8Step(s) > 0
    ensures s[..Utf8Step(s)] == CharBytes(c)
  {
    var n := Utf8Step(s);
    if n == 1 {
      c := s[0];
    } else if n == 2 {
      c := Two(s[0] - 0xC0, s[1] - 0x80);
    } else if n == 3 {
      c := Three(s[0] - 0xE0, s[1] - 0x80, s[2] - 0x80);
    } else {
      c := Four(s[0] - 0xF0, s[1] - 0x80, s[2] - 0x80, s[3] - 0x80);
    }
  }

  lemma Two(a: nat, b: nat) returns (c: Scalar)
    requires 2 <= a < 32 && b < 64
    ensures CharBytes(c) == [0xC0 + a, 0x80 + b]
  {
    TwoDigits(a, b);
    c := a * 64 + b;
  }

  lemma Three(a: nat, b: nat, d: nat) returns (c: Scalar)
    requires a < 16 && b < 64 && d < 64 && (a == 0 ==> b >= 32) && (a == 13 ==> b < 32)
    ensures CharBytes(c) == [0xE0 + a, 0x80 + b, 0x80 + d]
  {
    DigitsOf3(a, b, d);
    c := (a * 64 + b) * 64 + d;
  }

  lemma Four(e: nat, a: nat, b: nat, d: nat) returns (c: Scalar)
    requires e <= 4 && a < 64 && b < 64 && d < 64 && (e == 0 ==> a >= 16) && (e == 4 ==> a < 16)
    ensures CharBytes(c) == [0xF0 + e, 0x80 + a, 0x80 + b, 0x80 + d]
  {
    DigitsOf4(e, a, b, d);
    c := ((e * 64 + a) * 64 + b) * 64 + d;
  }

  /** The bytes of a character are recognised as one sequence, whatever follows. */
  lemma CharWritten(c: Scalar, r: bytes)
    ensures Utf8Step(CharBytes(c) + r) == |CharBytes(c)|
  {
    var s := CharBytes(c) + r;
    assert forall i :: 0 <= i < |CharBytes(c)| ==> s[i] == CharBytes(c)[i];
    if c < 0x800 {
    } else if c < 0x1_0000 {
      SmallDigits3(c);
    } else {
      SmallDigits4(c);
    }
  }

  lemma SmallDigits3(c: Scalar)
    requires 0x800 <= c < 0x1_0000
    ensures c / 4096 == 0 ==> c / 64 % 64 >= 32
    ensures c / 4096 == 13 ==> c / 64 % 64 < 32
    ensures c / 4096 < 16
  {
    var q := c / 64;
    assert q / 64 == c / 4096;
  }

  lemma SmallDigits4(c: Scalar)
    requires 0x1_0000 <= c
    ensures c / 262_144 == 0 ==> c / 4096 % 64 >= 16
    ensures c / 262_144 == 4 ==> c / 4096 % 64 < 16
    ensures c / 262_144 <= 4
  {
    var q := c / 4096;
    assert q / 64 == c / 262_144;
  }

  // --------------------------------------------------------------------------- texts

  lemma {:induction false} TextValid(cs: seq<Scalar>)
    ensures ValidUtf8(TextBytes(cs))
  {
    hide CharBytes, Utf8Step;
    if cs == [] {
    } else {
      var first, rest := CharBytes(cs[0]), TextBytes(cs[1..]);
      CharWritten(cs[0], rest);
      TextValid(cs[1..]);
      assert (first + rest)[|first|..] == rest;
    }
  }

  lemma {:induction false} TextRead(s: bytes) returns (cs: seq<Scalar>)
    requires ValidUtf8(s)
    ensures TextBytes(cs) == s
  {
    hide CharBytes, Utf8Step;
    if s == [] {
      cs := [];
    } else {
      var n := Utf8Step(s);
      var c := CharRead(s);
      var rest := TextRead(s[n..]);
      cs := [c] + rest;
      assert cs[1..] == rest && s == s[..n] + s[n..];
    }
  }

  /** Text is accepted exactly when it is what some characters are written as. */
  lemma ValidExactly(s: bytes)
    ensures ValidUtf8(s) <==> exists cs: seq<Scalar> :: TextBytes(cs) == s
  {
    if ValidUtf8(s) {
      var cs := TextRead(s);
    }
    if exists cs: seq<Scalar> :: TextBytes(cs) == s {
      var cs: seq<Scalar> :| TextBytes(cs) == s;
      TextValid(cs);
    }
  }

  lemma CharHas(c: Scalar, b: byte)
    requires b < 128
    ensures b in CharBytes(c) <==> c == b
  {
  }

  /** A byte below 128 occurs in a text exactly when the character does. */
  lemma {:induction false} AsciiIsCharacter(cs: seq<Scalar>, b: byte)
    requires b < 128
    ensures b in TextBytes(cs) <==> b in cs
  {
    hide CharBytes;
    if cs == [] {
    } else {
      CharHas(cs[0], b);
      AsciiIsCharacter(cs[1..], b);
      assert b in cs <==> b == cs[0] || b in cs[1..];
    }
  }

  /** Characters are told apart by their bytes. */
  lemma {:induction false} TextInjective(cs: seq<Scalar>, ds: seq<Scalar>)
    requires TextBytes(cs) == TextBytes(ds)
    ensures cs == ds
  {
    hide CharBytes, Utf8Step;
    if cs == [] || ds == [] {
      assert TextBytes(cs) == [] && TextBytes(ds) == [];
    } else {
      var s, r, t := TextBytes(cs), TextBytes(cs[1..]), TextBytes(ds[1..]);
      CharWritten(cs[0], r);
      CharWritten(ds[0], t);
      assert s[..Utf8Step(s)] == CharBytes(cs[0]) && s[..Utf8Step(s)] == CharBytes(ds[0]);
      assert s[Utf8Step(s)..] == r && s[Utf8Step(s)..] == t;
      CharInjective(cs[0], ds[0]);
      TextInjective(cs[1..], ds[1..]);
      assert cs == [cs[0]] + cs[1..] && ds == [ds[0]] + ds[1..];
    }
  }

  lemma CharInjective(c: Scalar, d: Scalar)
    requires CharBytes(c) == CharBytes(d)
    ensures c == d
  {
    CharValue(c);
    CharValue(d);
  }

  /** The character, computed from its bytes. */
  function ValueOf(s: bytes): int
    requires 1 <= |s| <= 4
  {
    var low := (i: int) requires 0 <= i < |s| => s[i] as int - 0x80;
    if |s| == 1 then s[0]
    else if |s| == 2 then (s[0] as int - 0xC0) * 64 + low(1)
    else if |s| == 3 then ((s[0] as int - 0xE0) * 64 + low(1)) * 64 + low(2)
    else (((s[0] as int - 0xF0) * 64 + low(1)) * 64 + low(2)) * 64 + low(3)
  }

  lemma CharValue(c: Scalar)
    ensures 1 <= |CharBytes(c)| <= 4 && ValueOf(CharBytes(c)) == c
  {
    ThreeQuotients(c);
  }

  lemma ThreeQuotients(c: nat)
    ensures c == 64 * (c / 64) + c % 64
    ensures c / 64 == 64 * (c / 4096) + c / 64 % 64
    ensures c / 4096 == 64 * (c / 262_144) + c / 4096 % 64
  {
    assert c / 64 / 64 == c / 4096;
    assert c / 4096 / 64 == c / 262_144;
  }
}
