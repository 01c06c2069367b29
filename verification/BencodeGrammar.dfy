/** The bencode grammar as the decoder understands it: concrete syntax trees that keep the
    numerals and the entry order as written, the bytes a tree spells, and the value it means.
    Nothing here looks at a cursor. */
module BencodeGrammar {
  import opened Bytes
  import opened Decimal

  /** What decoding returns. Dictionaries are compared as maps, as Python compares them. */
  datatype Value =
    | Int(n: int)
    | Str(s: bytes)
    | List(items: seq<Value>)
    | Dict(entries: map<bytes, Value>)

  datatype Syntax =
    | IntSyntax(text: bytes)
    | StrSyntax(len: bytes, body: bytes)
    | ListSyntax(items: seq<Syntax>)
    | DictSyntax(fields: seq<Field>)

  datatype Field = Field(len: bytes, key: bytes, value: Syntax)

  /** `isdigit()` on one decoded byte also holds for superscript one, two and three. */
  predicate StartsString(b: byte) {
    IsDigit(b) || b == 178 || b == 179 || b == 185
  }

  predicate IsLengthOf(len: bytes, body: bytes) {
    IsNumeral(len) && NumeralValue(len) == |body|
  }

  predicate WellFormed(t: Syntax) {
    match t
    case IntSyntax(text) => IsIntegerText(text)
    case StrSyntax(len, body) => IsLengthOf(len, body) && IsDigit(len[0])
    case ListSyntax(items) => WellFormedItems(items)
    case DictSyntax(fields) => WellFormedFields(fields)
  }

  predicate WellFormedItems(ts: seq<Syntax>) {
    ts == [] || (WellFormed(ts[0]) && WellFormedItems(ts[1..]))
  }

  predicate WellFormedFields(fs: seq<Field>) {
    fs == [] || (WellFormedField(fs[0]) && WellFormedFields(fs[1..]))
  }

  /** A key is read without the leading-digit test, so its length may carry a sign. */
  predicate WellFormedField(f: Field) {
    IsLengthOf(f.len, f.key) && WellFormed(f.value)
  }

  function Flat(t: Syntax): bytes {
    match t
    case IntSyntax(text) => [INTEGER] + text + [END]
    case StrSyntax(len, body) => len + [COLON] + body
    case ListSyntax(items) => [LIST] + FlatItems(items) + [END]
    case DictSyntax(fields) => [DICT] + FlatFields(fields) + [END]
  }

  function FlatItems(ts: seq<Syntax>): bytes {
    if ts == [] then [] else Flat(ts[0]) + FlatItems(ts[1..])
  }

  function FlatFields(fs: seq<Field>): bytes {
    if fs == [] then [] else FlatField(fs[0]) + FlatFields(fs[1..])
  }

  function FlatField(f: Field): bytes {
    f.len + [COLON] + f.key + Flat(f.value)
  }

  function Meaning(t: Syntax): Value
    requires WellFormed(t)
  {
    match t
    case IntSyntax(text) => Int(IntegerValue(text))
    case StrSyntax(_, body) => Str(body)
    case ListSyntax(items) => List(MeaningItems(items))
    case DictSyntax(fields) => Dict(MeaningFields(fields))
  }

  function MeaningItems(ts: seq<Syntax>): (vs: seq<Value>)
    requires WellFormedItems(ts)
  {
    if ts == [] then [] else [Meaning(ts[0])] + MeaningItems(ts[1..])
  }

  /** Entries are stored one after the other, so a later entry overrides an earlier one. */
  function MeaningFields(fs: seq<Field>): (m: map<bytes, Value>)
    requires WellFormedFields(fs)
  {
    if fs == [] then map[]
    else
      assert WellFormedField(fs[0]);
      map[fs[0].key := Meaning(fs[0].value)] + MeaningFields(fs[1..])
  }

  lemma {:induction false} MeaningItemsAppend(ts: seq<Syntax>, t: Syntax)
    requires WellFormedItems(ts) && WellFormed(t)
    ensures WellFormedItems(ts + [t])
    ensures MeaningItems(ts + [t]) == MeaningItems(ts) + [Meaning(t)]
  {
    if ts != [] {
      MeaningItemsAppend(ts[1..], t);
      assert (ts + [t])[1..] == ts[1..] + [t];
    }
  }

  lemma {:induction false} MeaningFieldsAppend(fs: seq<Field>, f: Field)
    requires WellFormedFields(fs) && WellFormedField(f)
    ensures WellFormedFields(fs + [f])
    ensures MeaningFields(fs + [f]) == MeaningFields(fs)[f.key := Meaning(f.value)]
  {
    if fs != [] {
      MeaningFieldsAppend(fs[1..], f);
      assert (fs + [f])[1..] == fs[1..] + [f];
    }
  }

  /** A key has an entry when it was read, and the entry it was last read with. */
  lemma {:induction false} LastFieldWins(fs: seq<Field>, k: bytes) returns (i: int)
    requires WellFormedFields(fs)
    ensures -1 <= i < |fs| && forall j :: i < j < |fs| ==> fs[j].key != k
    ensures k in MeaningFields(fs) <==> i >= 0
    ensures i >= 0 ==> fs[i].key == k && WellFormed(fs[i].value) && MeaningFields(fs)[k] == Meaning(fs[i].value)
  {
    if fs == [] {
      i := -1;
    } else {
      i := LastFieldWins(fs[1..], k);
      if i >= 0 || fs[0].key == k {
        i := i + 1;
      }
    }
  }
}
