/** What the codec does to the bytes themselves: every integer and string by its digits, and
    sample inputs and outputs as plain byte numbers. */
module BencodeVectors {
  import opened Bytes
  import opened Decimal
  import opened BencodeGrammar
  import opened BencodeReader
  import opened BencodeEncoder
  import opened StableSort
  import opened BencodeTheorems
  import Utf8

  predicate AllDigits(ds: bytes) {
    ds != [] && forall i :: 0 <= i < |ds| ==> 48 <= ds[i] <= 57
  }

  predicate Sign(sign: bytes) {
    sign == [] || sign == [43] || sign == [45]
  }

  function Signed(sign: bytes, n: int): int {
    if sign == [45] then 0 - n else n
  }

  lemma SignedIs(sign: bytes, ds: bytes)
    requires Sign(sign) && AllDigits(ds)
    ensures IsNumeral(sign + ds) && NumeralValue(sign + ds) == Signed(sign, Positional(ds))
    ensures |sign + ds| == |sign| + |ds|
  {
    NumeralIs(sign, ds);
  }

  lemma UnsignedIs(ds: bytes)
    requires AllDigits(ds)
    ensures IsNumeral(ds) && IsDigit(ds[0]) && NumeralValue(ds) == Positional(ds)
  {
    NumeralIs([], ds);
    assert [] + ds == ds;
  }

  // ----- Integers.

  /** `i`, the text, `e` at the start of an input. */
  predicate Bracketed(data: bytes, text: bytes) {
    |data| >= |text| + 2 && data[0] == 105 && data[1..|text| + 1] == text && data[|text| + 1] == 101
  }

  lemma IntegerDecodes(data: bytes, text: bytes)
    requires IsIntegerText(text) && Bracketed(data, text)
    ensures DecodeAt(data, 0) == Done(Int(IntegerValue(text)), |text| + 2)
  {
    assert Flat(IntSyntax(text)) == data[..|text| + 2];
    ReadComplete(data, 0, IntSyntax(text), |text| + 2);
  }

  lemma NegatedDecodes(data: bytes, t: bytes)
    requires IsNumeral(t) && Bracketed(data, [45] + t)
    ensures DecodeAt(data, 0) == Done(Int(-NumeralValue(t)), |t| + 3)
  {
    IntegerTextIs(t);
    IntegerDecodes(data, [45] + t);
  }

  /** Behind a minus: the value of the signed digits, negated. */
  lemma MinusDecodes(data: bytes, t: bytes, sign: bytes, ds: bytes)
    requires Sign(sign) && AllDigits(ds) && t == sign + ds && Bracketed(data, [45] + t)
    ensures DecodeAt(data, 0) == Done(Int(0 - Signed(sign, Positional(ds))), |t| + 3)
  {
    assert IsNumeral(t) && NumeralValue(t) == Signed(sign, Positional(ds)) by {
      SignedIs(sign, ds);
    }
    NegatedDecodes(data, t);
  }

  /** Without a minus a redundant leading zero is refused. */
  predicate Redundant(sign: bytes, ds: bytes) {
    sign == [] && |ds| > 1 && ds[0] == 48
  }

  lemma PlainDecodes(data: bytes, sign: bytes, ds: bytes)
    requires (sign == [] || sign == [43]) && AllDigits(ds) && !Redundant(sign, ds) && Bracketed(data, sign + ds)
    ensures DecodeAt(data, 0) == Done(Int(Positional(ds)), |sign| + |ds| + 2)
  {
    NumeralIs(sign, ds);
    IntegerTextIs(sign + ds);
    IntegerDecodes(data, sign + ds);
  }

  lemma RedundantRefused(data: bytes, ds: bytes)
    requires AllDigits(ds) && Redundant([], ds) && Bracketed(data, ds)
    ensures DecodeAt(data, 0) == Failed(InvalidInteger, |ds| + 2)
  {
    IntegerTextIs(ds);
    AsciiDecoded(ds);
    forall i | 1 <= i < |ds| + 1 ensures data[i] != 101 {
      assert data[1..|ds| + 1][i - 1] == ds[i - 1];
    }
    ScanIs(data, 1, 101, |ds| + 1);
  }

  lemma AsciiDecoded(ds: bytes)
    requires AllDigits(ds)
    ensures Utf8.Decodable(ds)
  {
    Utf8.AsciiDecodable(ds);
  }

  // ----- Strings.

  /** Digits, colon, that many bytes, however many zeros the length starts with. */
  lemma StringDecodes(data: bytes, ds: bytes, body: bytes)
    requires AllDigits(ds) && Positional(ds) == |body| && |data| >= |ds| + 1 + |body|
    requires data[..|ds|] == ds && data[|ds|] == 58 && data[|ds| + 1..|ds| + 1 + |body|] == body
    ensures DecodeAt(data, 0) == Done(Str(body), |ds| + 1 + |body|)
  {
    UnsignedIs(ds);
    var t, q := StrSyntax(ds, body), |ds| + 1 + |body|;
    assert data[..q] == data[..|ds|] + [data[|ds|]] + data[|ds| + 1..q];
    assert Flat(t) == data[..q];
    ReadComplete(data, 0, t, q);
  }

  // ----- Samples.

  lemma OneDigit(d: byte)
    ensures Positional([d]) == d - 48
  {
    assert [d][1..] == [];
    assert Power(0) == 1;
  }

  lemma TwoDigits(c: byte, d: byte)
    ensures Positional([c, d]) == 10 * (c - 48) + d - 48
  {
    OneDigit(d);
    assert [c, d][1..] == [d];
    assert Power(1) == 10 * Power(0) == 10;
  }

  /** `i-03e` is -3, `i-0e` is 0, and `i--5e` is 5. */
  lemma MinusThenZero()
    ensures DecodeAt([105, 45, 48, 51, 101], 0) == Done(Int(-3), 5)
  {
    TwoDigits(48, 51);
    MinusDecodes([105, 45, 48, 51, 101], [48, 51], [], [48, 51]);
  }

  lemma MinusZero()
    ensures DecodeAt([105, 45, 48, 101], 0) == Done(Int(0), 4)
  {
    OneDigit(48);
    MinusDecodes([105, 45, 48, 101], [48], [], [48]);
  }

  lemma MinusMinus()
    ensures DecodeAt([105, 45, 45, 53, 101], 0) == Done(Int(5), 5)
  {
    OneDigit(53);
    MinusDecodes([105, 45, 45, 53, 101], [45, 53], [45], [53]);
  }

  /** `i42e` is 42, and `i+3e` and `i+03e` are 3; but `i03e` is refused. */
  lemma WithoutMinus()
    ensures DecodeAt([105, 52, 50, 101], 0) == Done(Int(42), 4)
    ensures DecodeAt([105, 43, 51, 101], 0) == Done(Int(3), 4)
  {
    TwoDigits(52, 50);
    OneDigit(51);
    PlainDecodes([105, 52, 50, 101], [], [52, 50]);
    PlainDecodes([105, 43, 51, 101], [43], [51]);
  }

  lemma PlusThenZero()
    ensures DecodeAt([105, 43, 48, 51, 101], 0) == Done(Int(3), 5)
  {
    TwoDigits(48, 51);
    assert [43] + [48, 51] == [43, 48, 51];
    PlainDecodes([105, 43, 48, 51, 101], [43], [48, 51]);
  }

  lemma ZeroRefused()
    ensures DecodeAt([105, 48, 51, 101], 0) == Failed(InvalidInteger, 4)
  {
    RedundantRefused([105, 48, 51, 101], [48, 51]);
  }

  /** `03:abc`, and `3:abcd`, whose last byte is left. */
  lemma Strings()
    ensures DecodeAt([48, 51, 58, 97, 98, 99], 0) == Done(Str([97, 98, 99]), 6)
    ensures DecodeAt([51, 58, 97, 98, 99, 100], 0) == Done(Str([97, 98, 99]), 5)
  {
    TwoDigits(48, 51);
    OneDigit(51);
    StringDecodes([48, 51, 58, 97, 98, 99], [48, 51], [97, 98, 99]);
    StringDecodes([51, 58, 97, 98, 99, 100], [51], [97, 98, 99]);
  }

  /** `li1ei2ee` keeps its order. */
  lemma InOrder()
    ensures DecodeAt([108, 105, 49, 101, 105, 50, 101, 101], 0) == Done(List([Int(1), Int(2)]), 8)
  {
    var one, two := IntSyntax([49]), IntSyntax([50]);
    var data := [108, 105, 49, 101, 105, 50, 101, 101];
    DigitMeans(49);
    DigitMeans(50);
    assert [one, two][1..] == [two] && [two][1..] == [];
    assert WellFormedItems([two]) && WellFormedItems([one, two]);
    assert MeaningItems([two]) == [Int(2)];
    assert MeaningItems([one, two]) == [Int(1), Int(2)];
    assert FlatItems([two]) == [105, 50, 101];
    assert FlatItems([one, two]) == [105, 49, 101] + [105, 50, 101];
    assert data[0..] == data == Flat(ListSyntax([one, two]));
    ReadComplete(data, 0, ListSyntax([one, two]), 8);
  }

  lemma DigitMeans(d: byte)
    requires 48 < d <= 57
    ensures WellFormed(IntSyntax([d])) && Meaning(IntSyntax([d])) == Int(d - 48) && Flat(IntSyntax([d])) == [105, d, 101]
    ensures IsNumeral([d]) && NumeralValue([d]) == d - 48
  {
    OneDigit(d);
    NumeralIs([], [d]);
    assert [] + [d] == [d];
    IntegerTextIs([d]);
  }

  lemma FieldMeans(k: byte, d: byte)
    requires 48 < d <= 57
    ensures var f := Field([49], [k], IntSyntax([d]));
      WellFormedField(f) && Meaning(f.value) == Int(d - 48) && FlatField(f) == [49, 58, k, 105, d, 101]
  {
    DigitMeans(49);
    DigitMeans(d);
  }

  lemma TwoFields(f: Field, g: Field)
    requires WellFormedField(f) && WellFormedField(g)
    ensures WellFormedFields([f, g]) && FlatFields([f, g]) == FlatField(f) + FlatField(g)
    ensures MeaningFields([f, g]) == map[f.key := Meaning(f.value)] + map[g.key := Meaning(g.value)]
  {
    FlatTwo(f, g);
    assert [f, g][1..] == [g] && [g][1..] == [];
    assert MeaningFields([g]) == map[g.key := Meaning(g.value)];
  }

  lemma Between()
    ensures var data: bytes := [100, 49, 58, 97, 105, 49, 101, 49, 58, 97, 105, 50, 101, 101];
      data[1..13] == [49, 58, 97, 105, 49, 101] + [49, 58, 97, 105, 50, 101]
  {
  }

  lemma SameKeyTwice(data: bytes, k: byte, c: byte, d: byte)
    requires 48 < c <= 57 && 48 < d <= 57
    requires |data| == 14 && data[0] == 100 && data[13] == 101
    requires data[1..13] == [49, 58, k, 105, c, 101] + [49, 58, k, 105, d, 101]
    ensures DecodeAt(data, 0) == Done(Dict(map[[k] := Int(d - 48)]), 14)
  {
    var f, g := Field([49], [k], IntSyntax([c])), Field([49], [k], IntSyntax([d]));
    FieldMeans(k, c);
    FieldMeans(k, d);
    TwoFields(f, g);
    LaterStays([k], Int(c - 48), Int(d - 48));
    DictDecodes(data, [f, g]);
  }

  /** Of `d1:ai1e1:ai2ee` the later entry stays. */
  lemma Overridden()
    ensures DecodeAt([100, 49, 58, 97, 105, 49, 101, 49, 58, 97, 105, 50, 101, 101], 0) ==
            Done(Dict(map[[97] := Int(2)]), 14)
  {
    Between();
    SameKeyTwice([100, 49, 58, 97, 105, 49, 101, 49, 58, 97, 105, 50, 101, 101], 97, 49, 50);
  }

  lemma LaterStays(k: bytes, v: Value, w: Value)
    ensures map[k := v] + map[k := w] == map[k := w]
  {
  }

  lemma DictDecodes(data: bytes, fs: seq<Field>)
    requires WellFormedFields(fs) && |data| >= 2 && data[0] == 100 && data[1..|data| - 1] == FlatFields(fs)
    requires data[|data| - 1] == 101
    ensures DecodeAt(data, 0) == Done(Dict(MeaningFields(fs)), |data|)
  {
    var inner := data[1..|data| - 1];
    assert data == [data[0]] + inner + [data[|data| - 1]];
    assert data == Flat(DictSyntax(fs));
    assert data[0..] == data;
    ReadComplete(data, 0, DictSyntax(fs), |data|);
  }

  // ----- Which byte leads where.

  /** The only bytes that begin a value: the letters i, l and d, the digits, and the three
      superscript digits, for which `isdigit()` holds too but which no length starts with. */
  lemma LeadingBytes(data: bytes, pos: nat)
    requires pos < |data|
    ensures var b: int := data[pos];
      Read(data, pos) == Failed(InvalidCharacter, pos) <==>
      !(b == 105 || b == 108 || b == 100 || 48 <= b <= 57 || b == 178 || b == 179 || b == 185)
  {
    ItemsFailLater(data, pos + 1);
    FieldsFailLater(data, pos + 1);
  }

  /** An error is never reported before the place it was met at. */
  lemma {:induction false} FailsLater(data: bytes, pos: nat)
    ensures Read(data, pos).Failed? ==> Read(data, pos).pos >= pos
    decreases |data| - pos, 0
  {
    if pos < |data| {
      ItemsFailLater(data, pos + 1);
      FieldsFailLater(data, pos + 1);
    }
  }

  lemma {:induction false} ItemsFailLater(data: bytes, pos: nat)
    ensures ReadItems(data, pos).Failed? ==> ReadItems(data, pos).pos >= pos
    decreases |data| - pos, 1
  {
    if pos < |data| {
      FailsLater(data, pos);
      var t := Read(data, pos);
      if t.Done? {
        ItemsFailLater(data, t.pos);
      }
    }
  }

  lemma {:induction false} FieldsFailLater(data: bytes, pos: nat)
    ensures ReadFields(data, pos).Failed? ==> ReadFields(data, pos).pos >= pos
    decreases |data| - pos, 1
  {
    if pos < |data| {
      FieldFailsLater(data, pos);
      var f := ReadField(data, pos);
      if f.Done? {
        FieldsFailLater(data, f.pos);
      }
    }
  }

  lemma {:induction false} FieldFailsLater(data: bytes, pos: nat)
    requires pos < |data|
    ensures ReadField(data, pos).Failed? ==> ReadField(data, pos).pos >= pos
    decreases |data| - pos, 0
  {
    var s := ReadString(data, pos);
    if s.Done? {
      FailsLater(data, s.pos);
    }
  }

  /** Input that stops too early: nothing at all, `i1`, `4`, `5:ab`, `l` and `d`. */
  lemma StopsEarly()
    ensures DecodeAt([], 0) == Failed(UnexpectedEnd, 0)
    ensures DecodeAt([105, 49], 0) == Failed(MissingIntegerEnd, 2)
    ensures DecodeAt([52], 0) == Failed(MissingColon, 1)
    ensures DecodeAt([53, 58, 97, 98], 0) == Failed(StringTooLong, 2)
    ensures DecodeAt([108], 0) == Failed(MissingListEnd, 1)
    ensures DecodeAt([100], 0) == Failed(MissingDictEnd, 1)
  {
    OneDigit(53);
    UnsignedIs([53]);
    ScanIs([53, 58, 97, 98], 0, 58, 1);
    assert [53, 58, 97, 98][0..1] == [53];
  }

  /** Numbers that are none: `ie`, `i-e`, `1x:a`, and `x`, where no value begins. */
  lemma Malformed()
    ensures DecodeAt([105, 101], 0) == Failed(InvalidInteger, 2)
    ensures DecodeAt([105, 45, 101], 0) == Failed(InvalidInteger, 3)
    ensures DecodeAt([49, 120, 58, 97], 0) == Failed(InvalidLength, 2)
    ensures DecodeAt([120], 0) == Failed(InvalidCharacter, 0)
  {
    ScanIs([105, 101], 1, 101, 1);
    ScanIs([105, 45, 101], 1, 101, 2);
    ScanIs([49, 120, 58, 97], 0, 58, 2);
    assert [105, 101][1..1] == [] && [105, 45, 101][1..2] == [45];
    assert [49, 120, 58, 97][0..2] == [49, 120];
    Utf8.AsciiDecodable([]);
    Utf8.AsciiDecodable([45]);
    Utf8.AsciiDecodable([49, 120]);
  }

  /** A byte 255 in an integer or in a length is no text. */
  lemma NotText()
    ensures DecodeAt([105, 255, 101], 0) == Failed(NotUtf8, 2)
    ensures DecodeAt([49, 255, 58, 97], 0) == Failed(NotUtf8, 2)
  {
    ScanIs([105, 255, 101], 1, 101, 2);
    ScanIs([49, 255, 58, 97], 0, 58, 2);
    assert [105, 255, 101][1..2] == [255] && [49, 255, 58, 97][0..2] == [49, 255];
    assert [49, 255][1..] == [255];
    assert !Utf8.Decodable([255]);
  }

  /** `d-1:ai0ee`: the one way in which a cursor would go backward. */
  lemma NegativeKey()
    ensures DecodeAt([100, 45, 49, 58, 97, 105, 48, 101, 101], 0) == Failed(NegativeKeyLength, 4)
  {
    var data: bytes := [100, 45, 49, 58, 97, 105, 48, 101, 101];
    ScanIs(data, 1, 58, 3);
    OneDigit(49);
    SignedIs([45], [49]);
    assert [45] + [49] == [45, 49] == data[1..3];
    assert ReadString(data, 1) == Failed(NegativeKeyLength, 4);
  }

  // ----- What is written.

  /** The text `ab`, as key and as value, by its characters in their order. */
  lemma WrittenText()
    ensures Encoding(TextObject("ab")) == [50, 58, 97, 98]
    ensures KeyBytes(TextKey("ab")) == [97, 98] && KeyBytes(BytesKey([97, 98])) == [97, 98]
  {
    assert "ab"[1..] == "b" && "b"[1..] == "";
    assert Utf8.Encode("b") == [98];
    assert Utf8.Encode("ab") == [97, 98];
  }

  /** -42, 0, the bytes `spam`, and the letter e with an acute accent, whose two bytes are
      counted, not the one character. */
  lemma WrittenScalars()
    ensures Encoding(IntObject(-42)) == [105, 45, 52, 50, 101]
    ensures Encoding(IntObject(0)) == [105, 48, 101]
    ensures Encoding(BytesObject([115, 112, 97, 109])) == [52, 58, 115, 112, 97, 109]
    ensures Encoding(TextObject("\U{e9}")) == [50, 58, 195, 169]
  {
    assert Digits(42) == Digits(4) + [50];
    assert Utf8.Encode("\U{e9}") == [195, 169];
  }

  lemma WrittenList()
    ensures Supported(ListObject([IntObject(1), BytesObject([97])]))
    ensures Encoding(ListObject([IntObject(1), BytesObject([97])])) == [108, 105, 49, 101, 49, 58, 97, 101]
  {
    var one, two := IntObject(1), BytesObject([97]);
    assert [one, two][1..] == [two] && [two][1..] == [];
    assert SupportedItems([two]) && SupportedItems([one, two]);
    var s, t := TreeOf(one), TreeOf(two);
    assert TreesOf([two]) == [t] && TreesOf([one, two]) == [s, t];
    assert [s, t][1..] == [t] && [t][1..] == [];
    assert Flat(s) == [105, 49, 101] && Flat(t) == [49, 58, 97];
    assert FlatItems([t]) == [49, 58, 97];
    assert FlatItems([s, t]) == [105, 49, 101] + [49, 58, 97];
  }

  lemma TwoEntries(d: Entry, e: Entry)
    requires SupportedEntry(d) && SupportedEntry(e)
    ensures SupportedEntries([d, e]) && FieldsOf([d, e]) == [FieldOf(d), FieldOf(e)]
  {
    assert [d, e][1..] == [e] && [e][1..] == [];
    assert SupportedEntries([e]) && FieldsOf([e]) == [FieldOf(e)];
  }

  /** The key b is inserted first and a is written first. */
  lemma WrittenSorted()
    ensures var o := DictObject([Entry(BytesKey([98]), IntObject(2)), Entry(BytesKey([97]), IntObject(1))]);
      Supported(o) && Encoding(o) == [100, 49, 58, 97, 105, 49, 101, 49, 58, 98, 105, 50, 101, 101]
  {
    var d, e := Entry(BytesKey([98]), IntObject(2)), Entry(BytesKey([97]), IntObject(1));
    TwoEntries(d, e);
    WrittenField(98, 2);
    WrittenField(97, 1);
    SortsTwo(FieldOf(d), FieldOf(e));
    FlatTwo(FieldOf(e), FieldOf(d));
  }

  lemma FlatTwo(f: Field, g: Field)
    ensures FlatFields([f, g]) == FlatField(f) + FlatField(g)
  {
    assert [f, g][1..] == [g] && [g][1..] == [];
    assert FlatFields([g]) == FlatField(g);
  }

  lemma WrittenField(k: byte, n: nat)
    requires n < 10
    ensures var f := FieldOf(Entry(BytesKey([k]), IntObject(n)));
      f.key == [k] && FlatField(f) == [49, 58, k, 105, 48 + n, 101]
  {
  }

  lemma SortsTwo(f: Field, g: Field)
    requires |f.key| == 1 && |g.key| == 1 && g.key[0] < f.key[0]
    ensures SortBy([f, g], FieldKey) == [g, f]
  {
    assert [f, g][1..] == [g] && [g][1..] == [];
    assert SortBy([g], FieldKey) == [g];
    assert Below(g.key, f.key);
    assert InsertBy(f, [], FieldKey) == [f];
  }
}
