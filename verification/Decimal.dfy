/** Decimal numerals as the codec reads them (`int(...)`) and writes them (`f"{n}"`). */
module Decimal {
  import opened Bytes

  predicate IsDigit(b: byte) { 48 <= b <= 57 }

  /** At least one ASCII digit and nothing else. */
  predicate IsUnsigned(t: bytes) {
    t != [] && forall i :: 0 <= i < |t| ==> IsDigit(t[i])
  }

  function NatOf(t: bytes): nat
    requires IsUnsigned(t)
  {
    var last := t[|t| - 1] - 48;
    if |t| == 1 then last else 10 * NatOf(t[..|t| - 1]) + last
  }

  function Digits(n: nat): (t: bytes)
    ensures IsUnsigned(t)
  {
    if n < 10 then [48 + n] else Digits(n / 10) + [48 + n % 10]
  }

  /** What `int(...)` accepts: an optional sign, then digits. */
  predicate IsNumeral(t: bytes) {
    t != [] && if t[0] == PLUS || t[0] == MINUS then IsUnsigned(t[1..]) else IsUnsigned(t)
  }

  function NumeralValue(t: bytes): int
    requires IsNumeral(t)
  {
    if t[0] == PLUS then NatOf(t[1..]) else if t[0] == MINUS then 0 - NatOf(t[1..]) else NatOf(t)
  }

  /** The texts between `i` and `e` that the decoder takes: the leading-zero test is
      skipped after a minus sign, and a second sign may follow the first. */
  predicate IsIntegerText(t: bytes) {
    if t != [] && t[0] == MINUS then |t| > 1 && IsNumeral(t[1..])
    else IsNumeral(t) && (t[0] == ZERO ==> |t| == 1)
  }

  function IntegerValue(t: bytes): int
    requires IsIntegerText(t)
  {
    if t[0] == MINUS then -NumeralValue(t[1..]) else NumeralValue(t)
  }

  function IntegerText(n: int): bytes {
    if n < 0 then [MINUS] + Digits(-n) else Digits(n)
  }

  /** No sign and no redundant zero. */
  predicate IsCanonicalNat(t: bytes) {
    IsUnsigned(t) && (t[0] == ZERO ==> |t| == 1)
  }

  /** No plus sign, no redundant zero, no minus zero. */
  predicate IsCanonicalInteger(t: bytes) {
    IsCanonicalNat(t) || (t != [] && t[0] == MINUS && IsCanonicalNat(t[1..]) && t[1] != ZERO)
  }

  lemma {:induction false} DigitsRead(n: nat)
    ensures NatOf(Digits(n)) == n && IsCanonicalNat(Digits(n))
    ensures n > 0 ==> Digits(n)[0] != ZERO
  {
    if n >= 10 {
      DigitsRead(n / 10);
      var t := Digits(n);
      assert t[..|t| - 1] == Digits(n / 10);
    }
  }

  /** Writing the value of a numeral never takes more digits than the numeral had, and
      takes the same digits exactly when the numeral had no redundant zero. */
  lemma {:induction false} DigitsOfNatOf(t: bytes)
    requires IsUnsigned(t)
    ensures |Digits(NatOf(t))| <= |t|
    ensures IsCanonicalNat(t) <==> Digits(NatOf(t)) == t
    ensures NatOf(t) == 0 && IsCanonicalNat(t) ==> t == [ZERO]
  {
    DigitsRead(NatOf(t));
    if |t| > 1 {
      var front := t[..|t| - 1];
      DigitsOfNatOf(front);
      assert t == front + [t[|t| - 1]];
    }
  }

  lemma IntegerTextRead(n: int)
    ensures IsIntegerText(IntegerText(n)) && IntegerValue(IntegerText(n)) == n
    ensures IsCanonicalInteger(IntegerText(n))
  {
    if n < 0 {
      DigitsRead(-n);
      assert IntegerText(n)[1..] == Digits(-n);
    } else {
      DigitsRead(n);
    }
  }

  lemma MinusTextOfValue(t: bytes)
    requires t != [] && t[0] == MINUS && IsUnsigned(t[1..])
    ensures |IntegerText(0 - NatOf(t[1..]))| <= |t|
    ensures IsCanonicalInteger(t) <==> IntegerText(0 - NatOf(t[1..])) == t
  {
    var u := t[1..];
    DigitsOfNatOf(u);
    DigitsRead(NatOf(u));
    assert t == [MINUS] + u;
    if IntegerText(0 - NatOf(u)) == t {
      assert ([MINUS] + Digits(NatOf(u)))[1..] == Digits(NatOf(u));
    }
  }

  lemma IntegerTextOfValue(t: bytes)
    requires IsIntegerText(t)
    ensures |IntegerText(IntegerValue(t))| <= |t|
    ensures IsCanonicalInteger(t) <==> IntegerText(IntegerValue(t)) == t
  {
    if t[0] == MINUS && IsUnsigned(t[1..]) {
      MinusTextOfValue(t);
    } else if t[0] == MINUS {
      DigitsOfNatOf(t[1..][1..]);
      assert |IntegerText(IntegerValue(t))| < |t|;
    } else if t[0] == PLUS {
      DigitsOfNatOf(t[1..]);
    } else {
      DigitsOfNatOf(t);
    }
  }

  /** A length prefix is canonical exactly when it is what the encoder would write. */
  lemma LengthTextOfValue(t: bytes)
    requires IsNumeral(t) && NumeralValue(t) >= 0
    ensures |Digits(NumeralValue(t))| <= |t|
    ensures IsCanonicalNat(t) <==> Digits(NumeralValue(t)) == t
  {
    DigitsRead(NumeralValue(t));
    if t[0] == PLUS || t[0] == MINUS {
      DigitsOfNatOf(t[1..]);
    } else {
      DigitsOfNatOf(t);
    }
  }

  // ----- What a numeral is worth, read from the front.

  function Power(i: nat): nat {
    if i == 0 then 1 else 10 * Power(i - 1)
  }

  /** Each digit times the power of ten of its place. */
  function Positional(t: bytes): int {
    if t == [] then 0 else (t[0] - 48) * Power(|t| - 1) + Positional(t[1..])
  }

  lemma {:induction false} PositionalAppend(t: bytes, d: byte)
    ensures Positional(t + [d]) == 10 * Positional(t) + d - 48
  {
    if t == [] {
      assert ([] + [d])[1..] == [];
    } else {
      PositionalAppend(t[1..], d);
      assert (t + [d])[1..] == t[1..] + [d];
      assert (t[0] - 48) * Power(|t|) == 10 * ((t[0] - 48) * Power(|t| - 1));
    }
  }

  lemma {:induction false} NatOfIsPositional(t: bytes)
    requires IsUnsigned(t)
    ensures NatOf(t) == Positional(t)
  {
    var front, last := t[..|t| - 1], t[|t| - 1];
    assert t == front + [last];
    PositionalAppend(front, last);
    if |t| > 1 {
      NatOfIsPositional(front);
    }
  }

  /** A leading zero changes nothing, canonical or not what follows. */
  lemma LeadingZero(t: bytes)
    requires IsUnsigned(t)
    ensures IsUnsigned([48] + t) && NatOf([48] + t) == NatOf(t)
  {
    NatOfIsPositional(t);
    NatOfIsPositional([48] + t);
    assert ([48] + t)[1..] == t;
  }

  /** Which texts are numerals, and their values: digits alone or after one sign. */
  lemma NumeralIs(sign: bytes, ds: bytes)
    requires ds != [] && forall i :: 0 <= i < |ds| ==> 48 <= ds[i] <= 57
    requires sign == [] || sign == [43] || sign == [45]
    ensures IsNumeral(sign + ds)
    ensures NumeralValue(sign + ds) == if sign == [45] then 0 - Positional(ds) else Positional(ds)
  {
    NatOfIsPositional(ds);
    assert sign == [] ==> sign + ds == ds;
    assert sign != [] ==> (sign + ds)[1..] == ds;
  }

  lemma NumeralOnly(t: bytes) returns (sign: bytes, ds: bytes)
    requires IsNumeral(t)
    ensures t == sign + ds && ds != [] && (forall i :: 0 <= i < |ds| ==> 48 <= ds[i] <= 57)
    ensures sign == [] || sign == [43] || sign == [45]
  {
    if t[0] == 43 || t[0] == 45 {
      sign, ds := t[..1], t[1..];
    } else {
      sign, ds := [], t;
    }
  }

  /** The decoder's integers: a numeral after a minus sign, whatever it looks like; and any other
      numeral without a redundant leading zero. */
  lemma IntegerTextIs(t: bytes)
    ensures IsNumeral(t) ==> IsIntegerText([45] + t) && IntegerValue([45] + t) == -NumeralValue(t)
    ensures IsIntegerText([45] + t) ==> IsNumeral(t)
    ensures t != [] && t[0] != 45 ==> (IsIntegerText(t) <==> IsNumeral(t) && !(t[0] == 48 && |t| > 1))
    ensures t != [] && t[0] != 45 && IsIntegerText(t) ==> IntegerValue(t) == NumeralValue(t)
  {
    assert ([45] + t)[1..] == t;
  }
}
