/** Canonical bencode, as the "bencoding" section of BEP 3 asks for it: no redundant sign or
    zero in any numeral, dictionary keys strictly ascending as raw bytes. Every meaning has
    exactly one canonical tree, and the encoder writes it. */
module BencodeCanonical {
  import opened Bytes
  import opened Decimal
  import opened StableSort
  import opened BencodeGrammar
  import opened BencodeEncoder

  predicate Canonical(t: Syntax) {
    match t
    case IntSyntax(text) => IsCanonicalInteger(text)
    case StrSyntax(len, _) => IsCanonicalNat(len)
    case ListSyntax(items) => CanonicalItems(items)
    case DictSyntax(fields) => KeysAscend(fields) && CanonicalFields(fields)
  }

  predicate CanonicalItems(ts: seq<Syntax>) {
    ts == [] || (Canonical(ts[0]) && CanonicalItems(ts[1..]))
  }

  predicate CanonicalFields(fs: seq<Field>) {
    fs == [] || (CanonicalField(fs[0]) && CanonicalFields(fs[1..]))
  }

  predicate CanonicalField(f: Field) {
    IsCanonicalNat(f.len) && Canonical(f.value)
  }

  predicate KeysAscend(fs: seq<Field>) {
    |fs| > 1 ==> Below(fs[0].key, fs[1].key) && KeysAscend(fs[1..])
  }

  predicate HasKey(fs: seq<Field>, k: bytes) {
    fs != [] && (fs[0].key == k || HasKey(fs[1..], k))
  }

  // ----- A canonical tree is determined by what it means.

  lemma {:induction false} FirstKeyLeast(fs: seq<Field>, k: bytes)
    requires KeysAscend(fs) && HasKey(fs, k)
    ensures k == fs[0].key || Below(fs[0].key, k)
    decreases fs
  {
    if fs[0].key != k {
      FirstKeyLeast(fs[1..], k);
      if k != fs[1].key {
        BelowTransitive(fs[0].key, fs[1].key, k);
      }
    }
  }

  lemma {:induction false} MeaningKeys(fs: seq<Field>, k: bytes)
    requires WellFormedFields(fs)
    ensures k in MeaningFields(fs) <==> HasKey(fs, k)
  {
    if fs != [] {
      MeaningKeys(fs[1..], k);
    }
  }

  /** The first of strictly ascending keys is not overridden by the rest. */
  lemma FirstKeyOnce(fs: seq<Field>)
    requires fs != [] && KeysAscend(fs) && WellFormedFields(fs)
    ensures !HasKey(fs[1..], fs[0].key) && fs[0].key !in MeaningFields(fs[1..])
    ensures WellFormedField(fs[0]) && MeaningFields(fs)[fs[0].key] == Meaning(fs[0].value)
    ensures MeaningFields(fs[1..]) == MeaningFields(fs) - {fs[0].key}
  {
    MeaningKeys(fs[1..], fs[0].key);
    if HasKey(fs[1..], fs[0].key) {
      FirstKeyLeast(fs[1..], fs[0].key);
      BelowTrichotomy(fs[0].key, fs[1].key);
    }
    assert WellFormedField(fs[0]);
  }

  lemma SameFirstKey(fs: seq<Field>, gs: seq<Field>)
    requires KeysAscend(fs) && KeysAscend(gs) && WellFormedFields(fs) && WellFormedFields(gs)
    requires MeaningFields(fs) == MeaningFields(gs)
    ensures fs == [] <==> gs == []
    ensures fs != [] ==> fs[0].key == gs[0].key
  {
    if fs != [] {
      MeaningKeys(fs, fs[0].key);
      MeaningKeys(gs, fs[0].key);
    }
    if gs != [] {
      MeaningKeys(fs, gs[0].key);
      MeaningKeys(gs, gs[0].key);
    }
    if fs != [] && gs != [] {
      FirstKeyLeast(fs, gs[0].key);
      FirstKeyLeast(gs, fs[0].key);
      BelowTrichotomy(fs[0].key, gs[0].key);
    }
  }

  lemma CanonicalTextsUnique(t: bytes, u: bytes)
    requires IsNumeral(t) && IsNumeral(u) && NumeralValue(t) == NumeralValue(u) >= 0
    requires IsCanonicalNat(t) && IsCanonicalNat(u)
    ensures t == u
  {
    LengthTextOfValue(t);
    LengthTextOfValue(u);
  }

  lemma {:induction false} CanonicalUnique(t: Syntax, u: Syntax)
    requires WellFormed(t) && WellFormed(u) && Canonical(t) && Canonical(u)
    requires Meaning(t) == Meaning(u)
    ensures t == u
    decreases t
  {
    match t
    case IntSyntax(text) =>
      IntegerTextOfValue(text);
      IntegerTextOfValue(u.text);
    case StrSyntax(len, _) =>
      CanonicalTextsUnique(len, u.len);
    case ListSyntax(items) =>
      CanonicalItemsUnique(items, u.items);
    case DictSyntax(fields) =>
      CanonicalFieldsUnique(fields, u.fields);
  }

  lemma {:induction false} CanonicalItemsUnique(ts: seq<Syntax>, us: seq<Syntax>)
    requires WellFormedItems(ts) && WellFormedItems(us) && CanonicalItems(ts) && CanonicalItems(us)
    requires MeaningItems(ts) == MeaningItems(us)
    ensures ts == us
    decreases ts
  {
    if ts != [] {
      assert MeaningItems(ts)[1..] == MeaningItems(ts[1..]);
      assert MeaningItems(us)[1..] == MeaningItems(us[1..]);
      CanonicalUnique(ts[0], us[0]);
      CanonicalItemsUnique(ts[1..], us[1..]);
      assert ts == [ts[0]] + ts[1..] && us == [us[0]] + us[1..];
    }
  }

  lemma {:induction false} CanonicalFieldUnique(f: Field, g: Field)
    requires WellFormedField(f) && WellFormedField(g) && CanonicalField(f) && CanonicalField(g)
    requires f.key == g.key && Meaning(f.value) == Meaning(g.value)
    ensures f == g
    decreases f
  {
    CanonicalTextsUnique(f.len, g.len);
    CanonicalUnique(f.value, g.value);
  }

  lemma {:induction false} CanonicalFieldsUnique(fs: seq<Field>, gs: seq<Field>)
    requires KeysAscend(fs) && KeysAscend(gs)
    requires WellFormedFields(fs) && WellFormedFields(gs) && CanonicalFields(fs) && CanonicalFields(gs)
    requires MeaningFields(fs) == MeaningFields(gs)
    ensures fs == gs
    decreases fs
  {
    SameFirstKey(fs, gs);
    if fs != [] {
      FirstKeyOnce(fs);
      FirstKeyOnce(gs);
      assert CanonicalField(fs[0]) && CanonicalField(gs[0]);
      CanonicalFieldUnique(fs[0], gs[0]);
      CanonicalFieldsUnique(fs[1..], gs[1..]);
      assert fs == [fs[0]] + fs[1..] && gs == [gs[0]] + gs[1..];
    }
  }

  // ----- The encoder's trees are canonical exactly when no two keys of a dictionary collide.

  /** At every depth, no two keys of one dictionary have the same bytes. */
  predicate DistinctKeys(o: Object)
    requires Supported(o)
  {
    match o
    case ListObject(items) => DistinctInItems(items)
    case DictObject(entries) => DistinctInEntries(entries)
    case _ => true
  }

  predicate DistinctInItems(os: seq<Object>)
    requires SupportedItems(os)
  {
    os == [] || (DistinctKeys(os[0]) && DistinctInItems(os[1..]))
  }

  predicate DistinctInEntry(e: Entry)
    requires SupportedEntry(e)
    decreases e
  {
    DistinctKeys(e.value)
  }

  predicate DistinctInEntries(es: seq<Entry>)
    requires SupportedEntries(es)
  {
    es == [] || (EntryKey(es[0]) !in NormalEntries(es[1..]) && DistinctInEntry(es[0]) && DistinctInEntries(es[1..]))
  }

  lemma {:induction false} InsertHasKey(f: Field, fs: seq<Field>, k: bytes)
    ensures HasKey(InsertBy(f, fs, FieldKey), k) <==> f.key == k || HasKey(fs, k)
  {
    if fs == [] || !Below(fs[0].key, f.key) {
      assert ([f] + fs)[1..] == fs;
    } else {
      InsertHasKey(f, fs[1..], k);
      var r := InsertBy(f, fs[1..], FieldKey);
      assert ([fs[0]] + r)[1..] == r;
    }
  }

  lemma {:induction false} SortHasKey(fs: seq<Field>, k: bytes)
    ensures HasKey(SortBy(fs, FieldKey), k) <==> HasKey(fs, k)
  {
    if fs != [] {
      SortHasKey(fs[1..], k);
      InsertHasKey(fs[0], SortBy(fs[1..], FieldKey), k);
    }
  }

  lemma ConsAscends(f: Field, fs: seq<Field>)
    ensures KeysAscend([f] + fs) <==> KeysAscend(fs) && (fs != [] ==> Below(f.key, fs[0].key))
  {
  }

  lemma {:induction false} InsertAscends(f: Field, fs: seq<Field>)
    ensures KeysAscend(InsertBy(f, fs, FieldKey)) <==> KeysAscend(fs) && !HasKey(fs, f.key)
  {
    if fs == [] {
      ConsAscends(f, fs);
    } else {
      var g, rest := fs[0], fs[1..];
      BelowTrichotomy(g.key, f.key);
      assert fs == [g] + rest;
      ConsAscends(g, rest);
      if !Below(g.key, f.key) {
        ConsAscends(f, fs);
        if KeysAscend(fs) && HasKey(fs, f.key) {
          FirstKeyLeast(fs, f.key);
          BelowTrichotomy(f.key, g.key);
        }
      } else {
        InsertAscends(f, rest);
        ConsAscends(g, InsertBy(f, rest, FieldKey));
        if rest != [] && Below(g.key, f.key) && Below(f.key, rest[0].key) {
          BelowTransitive(g.key, f.key, rest[0].key);
        }
        InsertedFirst(f, rest);
      }
    }
  }

  lemma InsertedFirst(f: Field, fs: seq<Field>)
    ensures var r := InsertBy(f, fs, FieldKey);
      r != [] && ((r[0] == f && (fs != [] ==> !Below(fs[0].key, f.key))) || (fs != [] && r[0] == fs[0]))
  {
  }

  lemma {:induction false} FieldsHaveKey(es: seq<Entry>, k: bytes)
    requires SupportedEntries(es)
    ensures HasKey(FieldsOf(es), k) <==> k in NormalEntries(es)
  {
    if es != [] {
      FieldsHaveKey(es[1..], k);
      assert FieldsOf(es)[1..] == FieldsOf(es[1..]);
    }
  }

  lemma {:induction false} InsertCanonical(f: Field, fs: seq<Field>)
    ensures CanonicalFields(InsertBy(f, fs, FieldKey)) <==> CanonicalField(f) && CanonicalFields(fs)
  {
    if fs == [] || !Below(fs[0].key, f.key) {
      assert ([f] + fs)[1..] == fs;
    } else {
      InsertCanonical(f, fs[1..]);
      var r := InsertBy(f, fs[1..], FieldKey);
      assert ([fs[0]] + r)[1..] == r;
    }
  }

  lemma {:induction false} TreeOfCanonical(o: Object)
    requires Supported(o)
    ensures Canonical(TreeOf(o)) <==> DistinctKeys(o)
    decreases o
  {
    match o
    case IntObject(n) => IntegerTextRead(n);
    case BytesObject(b) => DigitsRead(|b|);
    case TextObject(s) => DigitsRead(|KeyBytes(TextKey(s))|);
    case ListObject(items) => TreesOfCanonical(items);
    case DictObject(entries) => FieldsOfCanonical(entries);
  }

  lemma {:induction false} TreesOfCanonical(os: seq<Object>)
    requires SupportedItems(os)
    ensures CanonicalItems(TreesOf(os)) <==> DistinctInItems(os)
    decreases os
  {
    if os != [] {
      TreeOfCanonical(os[0]);
      TreesOfCanonical(os[1..]);
      assert TreesOf(os)[1..] == TreesOf(os[1..]);
    }
  }

  lemma {:induction false} FieldOfCanonical(e: Entry)
    requires SupportedEntry(e)
    ensures CanonicalField(FieldOf(e)) <==> DistinctInEntry(e)
    decreases e
  {
    TreeOfCanonical(e.value);
    DigitsRead(|KeyBytes(e.key)|);
  }

  lemma {:induction false} FieldsOfCanonical(es: seq<Entry>)
    requires SupportedEntries(es)
    ensures var fs := SortBy(FieldsOf(es), FieldKey);
      KeysAscend(fs) && CanonicalFields(fs) <==> DistinctInEntries(es)
    decreases es
  {
    if es != [] {
      var f, sorted := FieldOf(es[0]), SortBy(FieldsOf(es[1..]), FieldKey);
      assert FieldsOf(es)[1..] == FieldsOf(es[1..]);
      FieldOfCanonical(es[0]);
      FieldsOfCanonical(es[1..]);
      InsertAscends(f, sorted);
      InsertCanonical(f, sorted);
      SortHasKey(FieldsOf(es[1..]), f.key);
      FieldsHaveKey(es[1..], f.key);
    }
  }
}
