/** Text as bytes: what Python's `str.encode` writes and Rust's `String::from_utf8` accepts. */
module Utf8 {
  import opened Common

  /** A code point in the shortest form. */
  function EncodeChar(c: char): (b: seq<byte>)
    ensures 1 <= |b| <= 4 && (|b| == 1 <==> c as int < 0x80)
  {
    var n := c as int;
    if n < 0x80 then [n as byte]
    else if n < 0x800 then [(0xC0 + n / 64) as byte, (0x80 + n % 64) as byte]
    else if n < 0x1_0000 then [(0xE0 + n / 4096) as byte, (0x80 + n / 64 % 64) as byte, (0x80 + n % 64) as byte]
    else [(0xF0 + n / 262144) as byte, (0x80 + n / 4096 % 64) as byte, (0x80 + n / 64 % 64) as byte,
      (0x80 + n % 64) as byte]
  }

  function Encode(s: string): seq<byte> {
    if s == "" then [] else EncodeChar(s[0]) + Encode(s[1..])
  }

  predicate Trails(b: byte) {
    0x80 <= b < 0xC0
  }

  /** Surrogates and values past the last plane are no characters. */
  function Scalar(n: int): Option<char> {
    if 0 <= n < 0xD800 || 0xE000 <= n < 0x11_0000 then Some(n as char) else None
  }

  /** The character that begins `b`; truncated, overlong and out-of-range forms are refused. */
  function DecodeChar(b: seq<byte>): Option<char> {
    if b == [] then None
    else if b[0] < 0x80 then Scalar(b[0] as int)
    else if 0xC2 <= b[0] < 0xE0 then
      if |b| >= 2 && Trails(b[1]) then Scalar((b[0] as int - 0xC0) * 64 + (b[1] as int - 0x80)) else None
    else if 0xE0 <= b[0] < 0xF0 then
      if |b| >= 3 && Trails(b[1]) && Trails(b[2]) then
        var n := (b[0] as int - 0xE0) * 4096 + (b[1] as int - 0x80) * 64 + (b[2] as int - 0x80);
        if n < 0x800 then None else Scalar(n)
      else None
    else if 0xF0 <= b[0] < 0xF5 then
      if |b| >= 4 && Trails(b[1]) && Trails(b[2]) && Trails(b[3]) then
        var n := (b[0] as int - 0xF0) * 262144 + (b[1] as int - 0x80) * 4096 + (b[2] as int - 0x80) * 64
          + (b[3] as int - 0x80);
        if n < 0x1_0000 then None else Scalar(n)
      else None
    else None
  }

  lemma Digits(a: nat, x: nat, y: nat, z: nat)
    requires x < 64 && y < 64 && z < 64
    ensures
      var n := a * 262144 + x * 4096 + y * 64 + z;
      n / 262144 == a && n / 4096 % 64 == x && n / 64 % 64 == y && n % 64 == z
  {
    var n := a * 262144 + x * 4096 + y * 64 + z;
    assert n / 64 == a * 4096 + x * 64 + y;
    assert n / 4096 == a * 64 + x;
  }

  /** A decoded character is the one whose encoding stands at the front. */
  lemma DecodeCharIsInverse(b: seq<byte>)
    requires DecodeChar(b).Some?
    ensures EncodeChar(DecodeChar(b).value) <= b
  {
    if b[0] < 0x80 {
      assert EncodeChar(DecodeChar(b).value) == b[..1];
    } else if b[0] < 0xE0 {
      Digits(0, 0, b[0] as int - 0xC0, b[1] as int - 0x80);
      assert EncodeChar(DecodeChar(b).value) == b[..2];
    } else if b[0] < 0xF0 {
      Digits(0, b[0] as int - 0xE0, b[1] as int - 0x80, b[2] as int - 0x80);
      assert EncodeChar(DecodeChar(b).value) == b[..3];
    } else {
      Digits(b[0] as int - 0xF0, b[1] as int - 0x80, b[2] as int - 0x80, b[3] as int - 0x80);
      assert EncodeChar(DecodeChar(b).value) == b[..4];
    }
  }

  function Decode(b: seq<byte>): Option<string>
    decreases |b|
  {
    if b == [] then Some("")
    else
      var c := DecodeChar(b);
      if c.None? then None
      else
        DecodeCharIsInverse(b);
        var rest := Decode(b[|EncodeChar(c.value)|..]);
        if rest.None? then None else Some([c.value] + rest.value)
  }

  lemma {:induction false} DecodeIsInverse(b: seq<byte>)
    requires Decode(b).Some?
    ensures Encode(Decode(b).value) == b
    decreases |b|
  {
    if b != [] {
      DecodeCharIsInverse(b);
      var first := EncodeChar(DecodeChar(b).value);
      DecodeIsInverse(b[|first|..]);
      assert b == first + b[|first|..];
      assert Decode(b).value[1..] == Decode(b[|first|..]).value;
    }
  }

  predicate Ascii(s: string) {
    forall i :: 0 <= i < |s| ==> s[i] as int < 0x80
  }

  /** The number of bytes is the number of characters exactly for ASCII text. */
  lemma {:induction false} AsciiLength(s: string)
    ensures |Encode(s)| >= |s|
    ensures |Encode(s)| == |s| <==> Ascii(s)
  {
    if s != "" {
      AsciiLength(s[1..]);
      assert Ascii(s) <==> s[0] as int < 0x80 && Ascii(s[1..]);
    }
  }

  // ---------- Every text is read back ----------

  /** The first character of an encoded text is recognised, whatever follows. */
  lemma DecodeCharEncoded(c: char, rest: seq<byte>)
    ensures DecodeChar(EncodeChar(c) + rest) == Some(c)
  {
    var n, b := c as int, EncodeChar(c) + rest;
    if n < 0x80 {
    } else if n < 0x800 {
      assert b[0] as int == 0xC0 + n / 64 && b[1] as int == 0x80 + n % 64;
    } else if n < 0x1_0000 {
      assert b[0] as int == 0xE0 + n / 4096 && b[1] as int == 0x80 + n / 64 % 64 && b[2] as int == 0x80 + n % 64;
      Recombine(n);
    } else {
      assert b[0] as int == 0xF0 + n / 262144 && b[1] as int == 0x80 + n / 4096 % 64;
      assert b[2] as int == 0x80 + n / 64 % 64 && b[3] as int == 0x80 + n % 64;
      Recombine(n);
    }
  }

  lemma Recombine(n: nat)
    ensures n / 4096 * 4096 + n / 64 % 64 * 64 + n % 64 == n
    ensures n / 262144 * 262144 + n / 4096 % 64 * 4096 + n / 64 % 64 * 64 + n % 64 == n
  {
    assert n / 64 / 64 == n / 4096 && n / 4096 / 64 == n / 262144;
  }

  /** Bytes are accepted exactly when they encode a text, and then as that text. */
  lemma {:induction false} DecodeExactly(b: seq<byte>, s: string)
    ensures Decode(b) == Some(s) <==> Encode(s) == b
    decreases |s|
  {
    if Decode(b) == Some(s) {
      DecodeIsInverse(b);
    }
    if Encode(s) == b && s != "" {
      var first := EncodeChar(s[0]);
      DecodeCharEncoded(s[0], Encode(s[1..]));
      assert b[|first|..] == Encode(s[1..]);
      DecodeExactly(b[|first|..], s[1..]);
      assert s == [s[0]] + s[1..];
    }
  }

  /** One character of each length, as the standard encodes it. */
  lemma Samples()
    ensures EncodeChar('A') == [0x41]
    ensures EncodeChar(0xE9 as char) == [0xC3, 0xA9]
    ensures EncodeChar(0x20AC as char) == [0xE2, 0x82, 0xAC]
    ensures EncodeChar(0x1_F600 as char) == [0xF0, 0x9F, 0x98, 0x80]
  {
  }
}
