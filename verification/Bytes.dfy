/** Raw bytes, the bencode delimiters, and the raw-byte order that dictionary keys are sorted by. */
module Bytes {
  type byte = b: int | 0 <= b < 256
  type bytes = seq<byte>

  const PLUS: byte := 43
  const MINUS: byte := 45
  const ZERO: byte := 48
  const COLON: byte := 58
  const DICT: byte := 100
  const END: byte := 101
  const INTEGER: byte := 105
  const LIST: byte := 108

  /** `b` occurs in `data` at position `pos`. */
  predicate At(data: bytes, pos: nat, b: bytes) {
    pos <= |data| && b <= data[pos..]
  }

  lemma AtConcat(data: bytes, pos: nat, a: bytes, b: bytes)
    ensures At(data, pos, a + b) <==> At(data, pos, a) && At(data, pos + |a|, b)
  {
  }

  /** Lexicographic order on raw bytes, strict. */
  predicate Below(a: bytes, b: bytes) {
    b != [] && (a == [] || a[0] < b[0] || (a[0] == b[0] && Below(a[1..], b[1..])))
  }

  lemma {:induction false} BelowTrichotomy(a: bytes, b: bytes)
    ensures Below(a, b) || a == b || Below(b, a)
    ensures !(Below(a, b) && Below(b, a))
    ensures Below(a, b) ==> a != b
  {
    if a != [] && b != [] {
      BelowTrichotomy(a[1..], b[1..]);
      if a[0] == b[0] && a[1..] == b[1..] {
        assert a == [a[0]] + a[1..] == b;
      }
    }
  }

  lemma {:induction false} BelowTransitive(a: bytes, b: bytes, c: bytes)
    requires Below(a, b) && Below(b, c)
    ensures Below(a, c)
  {
    if a != [] && a[0] == b[0] == c[0] {
      BelowTransitive(a[1..], b[1..], c[1..]);
    }
  }

  /** `a` is a proper prefix of `b`, or the first byte in which they differ is the smaller one. */
  ghost predicate Precedes(a: bytes, b: bytes) {
    a < b || exists i :: 0 <= i < |a| && i < |b| && a[..i] == b[..i] && a[i] < b[i]
  }

  lemma PrecedesBehind(d: byte, x: bytes, y: bytes)
    ensures Precedes([d] + x, [d] + y) <==> Precedes(x, y)
  {
    var a, b := [d] + x, [d] + y;
    if i :| 0 <= i < |x| && i < |y| && x[..i] == y[..i] && x[i] < y[i] {
      assert a[..i + 1] == [d] + x[..i] && b[..i + 1] == [d] + y[..i];
      assert a[i + 1] < b[i + 1];
    }
    if i :| 0 <= i < |a| && i < |b| && a[..i] == b[..i] && a[i] < b[i] {
      assert x[..i - 1] == a[..i][1..] && y[..i - 1] == b[..i][1..];
      assert x[i - 1] < y[i - 1];
    }
    assert a < b <==> x < y by {
      assert a[1..] == x && b[1..] == y;
    }
  }

  lemma FirstBytes(a: bytes, b: bytes)
    requires a != [] && b != [] && a[0] != b[0]
    ensures Precedes(a, b) <==> a[0] < b[0]
  {
    assert a[..0] == b[..0];
    assert forall i :: 0 < i <= |a| && i <= |b| ==> a[..i][0] != b[..i][0];
  }

  lemma {:induction false} BelowIff(a: bytes, b: bytes)
    ensures Below(a, b) <==> Precedes(a, b)
  {
    if a != [] && b != [] {
      if a[0] == b[0] {
        BelowIff(a[1..], b[1..]);
        PrecedesBehind(a[0], a[1..], b[1..]);
        assert a == [a[0]] + a[1..] && b == [a[0]] + b[1..];
      } else {
        FirstBytes(a, b);
      }
    }
  }
}
