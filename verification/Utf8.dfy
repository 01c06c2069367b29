/** `str.encode("utf-8")`, section 3 of RFC 3629, over Unicode scalar values, and the byte
    strings that `bytes.decode("utf-8")` accepts, section 4 of the same. */
module Utf8 {
  import opened Bytes

  function EncodeChar(c: char): (b: bytes)
    ensures b != []
  {
    var n := c as int;
    if n < 0x80 then [n]
    else if n < 0x800 then [0xC0 + n / 0x40, 0x80 + n % 0x40]
    else if n < 0x1_0000 then [0xE0 + n / 0x1000, 0x80 + n / 0x40 % 0x40, 0x80 + n % 0x40]
    else [0xF0 + n / 0x4_0000, 0x80 + n / 0x1000 % 0x40, 0x80 + n / 0x40 % 0x40, 0x80 + n % 0x40]
  }

  function Encode(s: string): bytes {
    if s == "" then [] else EncodeChar(s[0]) + Encode(s[1..])
  }

  /** What a decoder recovers from the bytes of one character. */
  function CodeOf(b: seq<int>): int
    requires 1 <= |b| <= 4
  {
    if |b| == 1 then b[0]
    else if |b| == 2 then (b[0] - 0xC0) * 0x40 + b[1] - 0x80
    else if |b| == 3 then (b[0] - 0xE0) * 0x1000 + (b[1] - 0x80) * 0x40 + b[2] - 0x80
    else (b[0] - 0xF0) * 0x4_0000 + (b[1] - 0x80) * 0x1000 + (b[2] - 0x80) * 0x40 + b[3] - 0x80
  }

  /** The first byte fixes how many bytes a character takes, and they fix the character. */
  lemma CodeRecovered(c: char)
    ensures var b := EncodeChar(c);
      |b| == (if b[0] < 0x80 then 1 else if b[0] < 0xE0 then 2 else if b[0] < 0xF0 then 3 else 4)
      && CodeOf(b) == c as int
  {
    var n := c as int;
    assert n == n / 0x40 * 0x40 + n % 0x40;
    assert n / 0x40 == n / 0x1000 * 0x40 + n / 0x40 % 0x40;
    assert n / 0x1000 == n / 0x4_0000 * 0x40 + n / 0x1000 % 0x40;
  }

  lemma CharPrefixFree(c: char, d: char, x: bytes, y: bytes)
    requires EncodeChar(c) + x == EncodeChar(d) + y
    ensures c == d && x == y
  {
    var a, b := EncodeChar(c), EncodeChar(d);
    CodeRecovered(c);
    CodeRecovered(d);
    assert (a + x)[0] == a[0] && (b + y)[0] == b[0];
    assert a == (a + x)[..|a|] == b && x == (a + x)[|a|..] == y;
  }

  /** Two distinct texts never share their bytes, so only a text key and a byte-string key
      of one dictionary can collide. */
  lemma {:induction false} EncodeInjective(s: string, t: string)
    requires Encode(s) == Encode(t)
    ensures s == t
  {
    if s != "" && t != "" {
      CharPrefixFree(s[0], t[0], Encode(s[1..]), Encode(t[1..]));
      EncodeInjective(s[1..], t[1..]);
      assert s == [s[0]] + s[1..] && t == [t[0]] + t[1..];
    }
  }

  // ----- Which bytes decode.

  predicate Tail(b: byte) { 0x80 <= b <= 0xBF }

  /** How many bytes the first character takes, zero if none starts there. */
  function FirstLength(b: bytes): (k: nat)
    ensures k <= |b|
  {
    if b == [] then 0
    else if b[0] < 0x80 then 1
    else if |b| < 2 || b[0] < 0xC2 || !Tail(b[1]) then 0
    else if b[0] < 0xE0 then 2
    else if |b| < 3 || !Tail(b[2]) || (b[0] == 0xE0 && b[1] < 0xA0) || (b[0] == 0xED && b[1] > 0x9F) then 0
    else if b[0] < 0xF0 then 3
    else if |b| < 4 || !Tail(b[3]) || (b[0] == 0xF0 && b[1] < 0x90) || (b[0] == 0xF4 && b[1] > 0x8F) || b[0] > 0xF4 then 0
    else 4
  }

  predicate Decodable(b: bytes) {
    b == [] || (FirstLength(b) > 0 && Decodable(b[FirstLength(b)..]))
  }

  lemma EncodedLength(c: char, rest: bytes)
    ensures FirstLength(EncodeChar(c) + rest) == |EncodeChar(c)|
  {
    var b := EncodeChar(c);
    CodeRecovered(c);
    assert b <= b + rest;
  }

  /** The first character, read off its bytes. */
  lemma FirstChar(b: bytes) returns (c: char)
    requires FirstLength(b) > 0
    ensures EncodeChar(c) == b[..FirstLength(b)]
  {
    var k := FirstLength(b);
    if k == 1 {
      c := b[0] as char;
    } else if k == 2 {
      c := CodeOf(b[..2]) as char;
    } else if k == 3 {
      c := ThreeBytes(b[0], b[1], b[2]);
      assert b[..3] == [b[0], b[1], b[2]];
    } else {
      c := FourBytes(b[0], b[1], b[2], b[3]);
      assert b[..4] == [b[0], b[1], b[2], b[3]];
    }
  }

  lemma ThreeBytes(x: byte, y: byte, z: byte) returns (c: char)
    requires 0xE0 <= x <= 0xEF && 0x80 <= y <= 0xBF && 0x80 <= z <= 0xBF
    requires (x == 0xE0 ==> y >= 0xA0) && (x == 0xED ==> y <= 0x9F)
    ensures EncodeChar(c) == [x, y, z]
  {
    var n := CodeOf([x, y, z]);
    var m := (x - 0xE0) * 0x40 + y - 0x80;
    assert n == m * 0x40 + z - 0x80 && n / 0x40 == m && n % 0x40 == z - 0x80;
    assert n / 0x1000 == m / 0x40 == x - 0xE0 && m % 0x40 == y - 0x80;
    c := n as char;
  }

  lemma FourBytes(w: byte, x: byte, y: byte, z: byte) returns (c: char)
    requires 0xF0 <= w <= 0xF4 && 0x80 <= x <= 0xBF && 0x80 <= y <= 0xBF && 0x80 <= z <= 0xBF
    requires (w == 0xF0 ==> x >= 0x90) && (w == 0xF4 ==> x <= 0x8F)
    ensures EncodeChar(c) == [w, x, y, z]
  {
    var n := CodeOf([w, x, y, z]);
    var l := (w - 0xF0) * 0x40 + x - 0x80;
    var m := l * 0x40 + y - 0x80;
    assert n == m * 0x40 + z - 0x80 && n / 0x40 == m && n % 0x40 == z - 0x80;
    assert n / 0x1000 == m / 0x40 == l && m % 0x40 == y - 0x80;
    assert n / 0x4_0000 == l / 0x40 == w - 0xF0 && l % 0x40 == x - 0x80;
    c := n as char;
  }

  /** A byte string decodes exactly when it is the encoding of some text. */
  lemma {:induction false} DecodableIff(b: bytes)
    ensures Decodable(b) <==> exists s :: Encode(s) == b
  {
    if Decodable(b) {
      var s := TextOf(b);
    }
    if s :| Encode(s) == b {
      EncodeDecodable(s);
    }
  }

  lemma {:induction false} TextOf(b: bytes) returns (s: string)
    requires Decodable(b)
    ensures Encode(s) == b
  {
    if b == [] {
      s := "";
    } else {
      var c := FirstChar(b);
      var t := TextOf(b[FirstLength(b)..]);
      s := [c] + t;
      assert s[1..] == t;
    }
  }

  lemma {:induction false} EncodeDecodable(s: string)
    ensures Decodable(Encode(s))
  {
    if s != "" {
      EncodedLength(s[0], Encode(s[1..]));
      EncodeDecodable(s[1..]);
    }
  }

  lemma {:induction false} AsciiDecodable(b: bytes)
    requires forall i :: 0 <= i < |b| ==> b[i] < 0x80
    ensures Decodable(b)
  {
    if b != [] {
      AsciiDecodable(b[1..]);
    }
  }

  /** The bits of a character, six to a byte after the first. */
  lemma EncodedBits(c: char)
    ensures var n: int, b: seq<int> := c as int, EncodeChar(c);
      && (n <= 0x7F ==> b == [n])
      && (0x80 <= n <= 0x7FF ==> |b| == 2 && n == 64 * (b[0] - 0xC0) + b[1] - 0x80)
      && (0x800 <= n <= 0xFFFF ==> |b| == 3 && n == 4096 * (b[0] - 0xE0) + 64 * (b[1] - 0x80) + b[2] - 0x80)
      && (0x1_0000 <= n ==>
            |b| == 4 && n == 262144 * (b[0] - 0xF0) + 4096 * (b[1] - 0x80) + 64 * (b[2] - 0x80) + b[3] - 0x80)
      && forall i :: 1 <= i < |b| ==> 0x80 <= b[i] <= 0xBF
  {
    CodeRecovered(c);
  }
}
