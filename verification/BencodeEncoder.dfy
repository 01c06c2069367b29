/** The encoder: what Python objects it takes, the tree whose bytes it writes, and the loops
    that write them. */
module BencodeEncoder {
  import opened Wrappers
  import opened Bytes
  import opened Decimal
  import opened BencodeGrammar
  import opened StableSort
  import Utf8

  datatype Key = BytesKey(b: bytes) | TextKey(s: string) | OtherKey

  /** Python objects. A dictionary is listed in insertion order. */
  datatype Object =
    | IntObject(n: int)
    | BytesObject(b: bytes)
    | TextObject(s: string)
    | ListObject(items: seq<Object>)
    | DictObject(entries: seq<Entry>)
    | OtherObject

  datatype Entry = Entry(key: Key, value: Object)

  datatype EncodeError = Unencodable

  /** Only int, bytes, str, list and dict, and only bytes and str as keys. */
  predicate Supported(o: Object) {
    match o
    case ListObject(items) => SupportedItems(items)
    case DictObject(entries) => SupportedEntries(entries)
    case OtherObject => false
    case _ => true
  }

  predicate SupportedItems(os: seq<Object>) {
    os == [] || (Supported(os[0]) && SupportedItems(os[1..]))
  }

  predicate SupportedEntries(es: seq<Entry>) {
    es == [] || (SupportedEntry(es[0]) && SupportedEntries(es[1..]))
  }

  predicate SupportedEntry(e: Entry) {
    !e.key.OtherKey? && Supported(e.value)
  }

  /** The sort key; a key of another type has none and is refused before this matters. */
  function KeyBytes(k: Key): bytes {
    match k
    case BytesKey(b) => b
    case TextKey(s) => Utf8.Encode(s)
    case OtherKey => []
  }

  /** The value an object stands for on the wire: text as its UTF-8 bytes, and of two keys
      with the same bytes the one inserted later. */
  function Normal(o: Object): Value
    requires Supported(o)
  {
    match o
    case IntObject(n) => Int(n)
    case BytesObject(b) => Str(b)
    case TextObject(s) => Str(Utf8.Encode(s))
    case ListObject(items) => List(NormalItems(items))
    case DictObject(entries) => Dict(NormalEntries(entries))
  }

  function NormalItems(os: seq<Object>): (vs: seq<Value>)
    requires SupportedItems(os)
  {
    if os == [] then [] else [Normal(os[0])] + NormalItems(os[1..])
  }

  function NormalEntry(e: Entry): Value
    requires SupportedEntry(e)
    decreases e
  {
    Normal(e.value)
  }

  function NormalEntries(es: seq<Entry>): map<bytes, Value>
    requires SupportedEntries(es)
  {
    if es == [] then map[]
    else map[KeyBytes(es[0].key) := NormalEntry(es[0])] + NormalEntries(es[1..])
  }

  // ----- The tree an object is written as.

  function StringField(key: bytes, value: Syntax): Field {
    Field(Digits(|key|), key, value)
  }

  function TreeOf(o: Object): Syntax
    requires Supported(o)
  {
    match o
    case IntObject(n) => IntSyntax(IntegerText(n))
    case BytesObject(b) => StrSyntax(Digits(|b|), b)
    case TextObject(s) => StrSyntax(Digits(|Utf8.Encode(s)|), Utf8.Encode(s))
    case ListObject(items) => ListSyntax(TreesOf(items))
    case DictObject(entries) => DictSyntax(SortBy(FieldsOf(entries), FieldKey))
  }

  function TreesOf(os: seq<Object>): seq<Syntax>
    requires SupportedItems(os)
  {
    if os == [] then [] else [TreeOf(os[0])] + TreesOf(os[1..])
  }

  function FieldOf(e: Entry): Field
    requires SupportedEntry(e)
    decreases e
  {
    StringField(KeyBytes(e.key), TreeOf(e.value))
  }

  function FieldsOf(es: seq<Entry>): seq<Field>
    requires SupportedEntries(es)
  {
    if es == [] then [] else [FieldOf(es[0])] + FieldsOf(es[1..])
  }

  function EntryKey(e: Entry): bytes {
    KeyBytes(e.key)
  }

  function FieldKey(f: Field): bytes {
    f.key
  }

  /** Sorting the entries and then spelling them is sorting what they are spelled as. */
  lemma {:induction false} FieldsOfInsert(e: Entry, es: seq<Entry>)
    requires SupportedEntry(e) && SupportedEntries(es)
    ensures SupportedEntries(InsertBy(e, es, EntryKey))
    ensures FieldsOf(InsertBy(e, es, EntryKey)) == InsertBy(FieldOf(e), FieldsOf(es), FieldKey)
  {
    InsertMembers(e, es, EntryKey);
    if es == [] || !Below(EntryKey(es[0]), EntryKey(e)) {
      assert ([e] + es)[1..] == es;
    } else {
      FieldsOfInsert(e, es[1..]);
      var r := InsertBy(e, es[1..], EntryKey);
      assert ([es[0]] + r)[1..] == r;
      assert FieldsOf(es)[1..] == FieldsOf(es[1..]);
    }
  }

  lemma {:induction false} BadItem(os: seq<Object>, o: Object)
    requires o in os && !Supported(o)
    ensures !SupportedItems(os)
  {
    if o != os[0] {
      BadItem(os[1..], o);
    }
  }

  lemma {:induction false} BadEntry(es: seq<Entry>, e: Entry)
    requires e in es && !SupportedEntry(e)
    ensures !SupportedEntries(es)
  {
    if e != es[0] {
      BadEntry(es[1..], e);
    }
  }

  lemma {:induction false} SomeBadEntry(es: seq<Entry>) returns (e: Entry)
    requires !SupportedEntries(es)
    ensures e in es && !SupportedEntry(e)
  {
    if !SupportedEntry(es[0]) {
      return es[0];
    }
    e := SomeBadEntry(es[1..]);
  }

  lemma SortSupported(es: seq<Entry>)
    ensures SupportedEntries(SortBy(es, EntryKey)) <==> SupportedEntries(es)
  {
    SortMembers(es, EntryKey);
    if !SupportedEntries(es) {
      var e := SomeBadEntry(es);
      BadEntry(SortBy(es, EntryKey), e);
    } else if !SupportedEntries(SortBy(es, EntryKey)) {
      var e := SomeBadEntry(SortBy(es, EntryKey));
      BadEntry(es, e);
    }
  }

  lemma {:induction false} FieldsOfSort(es: seq<Entry>)
    requires SupportedEntries(es) && SupportedEntries(SortBy(es, EntryKey))
    ensures FieldsOf(SortBy(es, EntryKey)) == SortBy(FieldsOf(es), FieldKey)
  {
    if es != [] {
      SortSupported(es[1..]);
      FieldsOfSort(es[1..]);
      FieldsOfInsert(es[0], SortBy(es[1..], EntryKey));
      assert FieldsOf(es)[1..] == FieldsOf(es[1..]);
    }
  }

  lemma {:induction false} TreesOfAppend(os: seq<Object>, o: Object)
    requires SupportedItems(os) && Supported(o)
    ensures SupportedItems(os + [o])
    ensures FlatItems(TreesOf(os + [o])) == FlatItems(TreesOf(os)) + Flat(TreeOf(o))
  {
    if os == [] {
      assert FlatItems([TreeOf(o)]) == Flat(TreeOf(o));
    } else {
      TreesOfAppend(os[1..], o);
      assert (os + [o])[1..] == os[1..] + [o];
      assert TreesOf(os)[1..] == TreesOf(os[1..]);
      assert TreesOf(os + [o])[1..] == TreesOf(os[1..] + [o]);
    }
  }

  lemma {:induction false} FieldsOfAppend(es: seq<Entry>, e: Entry)
    requires SupportedEntries(es) && SupportedEntry(e)
    ensures SupportedEntries(es + [e])
    ensures FlatFields(FieldsOf(es + [e])) == FlatFields(FieldsOf(es)) + FlatField(FieldOf(e))
  {
    if es == [] {
      assert FlatFields([FieldOf(e)]) == FlatField(FieldOf(e));
    } else {
      FieldsOfAppend(es[1..], e);
      assert (es + [e])[1..] == es[1..] + [e];
      assert FieldsOf(es)[1..] == FieldsOf(es[1..]);
      assert FieldsOf(es + [e])[1..] == FieldsOf(es[1..] + [e]);
    }
  }

  /** The dictionary loop after `i` turns. */
  ghost predicate EntriesWritten(sorted: seq<Entry>, i: nat, result: bytes) {
    i <= |sorted| && SupportedEntries(sorted[..i]) && result == [DICT] + FlatFields(FieldsOf(sorted[..i]))
  }

  lemma NextEntryWritten(es: seq<Entry>, i: nat, result: bytes)
    requires i < |es| && EntriesWritten(es, i, result) && SupportedEntry(es[i])
    ensures EntriesWritten(es, i + 1, result + EncodeString(KeyBytes(es[i].key)) + Flat(TreeOf(es[i].value)))
  {
    assert es[..i + 1] == es[..i] + [es[i]];
    FieldsOfAppend(es[..i], es[i]);
    assert FlatField(FieldOf(es[i])) == EncodeString(KeyBytes(es[i].key)) + Flat(TreeOf(es[i].value));
  }

  lemma AllEntriesWritten(es: seq<Entry>, sorted: seq<Entry>, result: bytes)
    requires sorted == SortBy(es, EntryKey) && EntriesWritten(sorted, |sorted|, result)
    ensures Writes(DictObject(es), Ok(result + [END]))
  {
    assert sorted[..|sorted|] == sorted;
    SortSupported(es);
    FieldsOfSort(es);
  }

  lemma EntryRefused(es: seq<Entry>, e: Entry)
    requires e in es && !SupportedEntry(e)
    ensures Writes(DictObject(es), Err(Unencodable))
  {
    BadEntry(es, e);
  }

  // ----- The encoder itself.

  /** `r` is the bytes of the object's tree, or the refusal of an unsupported object. */
  ghost predicate Writes(o: Object, r: Result<bytes, EncodeError>) {
    r == if Supported(o) then Ok(Flat(TreeOf(o))) else Err(Unencodable)
  }

  method Encode(o: Object) returns (r: Result<bytes, EncodeError>)
    ensures Writes(o, r)
    decreases o, 1
  {
    match o
    case IntObject(n) => r := Ok(EncodeInteger(n));
    case BytesObject(b) => r := Ok(EncodeString(b));
    case TextObject(s) => r := Ok(EncodeString(Utf8.Encode(s)));
    case ListObject(items) => r := EncodeList(o, items);
    case DictObject(entries) => r := EncodeDict(o, entries);
    case OtherObject => r := Err(Unencodable);
  }

  function EncodeInteger(n: int): bytes {
    [INTEGER] + IntegerText(n) + [END]
  }

  function EncodeString(b: bytes): bytes {
    Digits(|b|) + [COLON] + b
  }

  method EncodeList(ghost o: Object, items: seq<Object>) returns (r: Result<bytes, EncodeError>)
    requires o == ListObject(items)
    ensures Writes(o, r)
    decreases o, 0
  {
    var result: bytes := [LIST];
    for i := 0 to |items|
      invariant SupportedItems(items[..i])
      invariant result == [LIST] + FlatItems(TreesOf(items[..i]))
    {
      var item := Encode(items[i]);
      if item.Err? {
        BadItem(items, items[i]);
        return item;
      }
      TreesOfAppend(items[..i], items[i]);
      assert items[..i + 1] == items[..i] + [items[i]];
      result := result + item.value;
    }
    assert items[..|items|] == items;
    result := result + [END];
    return Ok(result);
  }

  method EncodeDict(ghost o: Object, entries: seq<Entry>) returns (r: Result<bytes, EncodeError>)
    requires o == DictObject(entries)
    ensures Writes(o, r)
    decreases o, 0
  {
    if e :| e in entries && e.key.OtherKey? {
      EntryRefused(entries, e);
      return Err(Unencodable);
    }
    var sorted := SortBy(entries, EntryKey);
    SortMembers(entries, EntryKey);
    var result: bytes := [DICT];
    for i := 0 to |sorted|
      invariant EntriesWritten(sorted, i, result)
    {
      var e := sorted[i];
      assert e in entries;
      var value := Encode(e.value);
      if value.Err? {
        EntryRefused(entries, e);
        return value;
      }
      NextEntryWritten(sorted, i, result);
      result := result + EncodeString(KeyBytes(e.key));
      result := result + value.value;
    }
    AllEntriesWritten(entries, sorted, result);
    result := result + [END];
    return Ok(result);
  }

  // ----- What the written tree means.

  lemma PutsSwap(k: bytes, v: Value, k': bytes, v': Value, m: map<bytes, Value>)
    requires k != k'
    ensures map[k := v] + (map[k' := v'] + m) == map[k' := v'] + (map[k := v] + m)
  {
  }

  lemma ConsMeaning(f: Field, fs: seq<Field>)
    requires WellFormedField(f) && WellFormedFields(fs)
    ensures WellFormedFields([f] + fs)
    ensures MeaningFields([f] + fs) == map[f.key := Meaning(f.value)] + MeaningFields(fs)
  {
  }

  lemma {:induction false} InsertMeaning(f: Field, fs: seq<Field>)
    requires WellFormedField(f) && WellFormedFields(fs)
    ensures WellFormedFields(InsertBy(f, fs, FieldKey))
    ensures MeaningFields(InsertBy(f, fs, FieldKey)) == map[f.key := Meaning(f.value)] + MeaningFields(fs)
  {
    if fs == [] || !Below(fs[0].key, f.key) {
      ConsMeaning(f, fs);
    } else {
      var g, rest := fs[0], fs[1..];
      assert WellFormedField(g);
      InsertMeaning(f, rest);
      ConsMeaning(g, InsertBy(f, rest, FieldKey));
      BelowTrichotomy(g.key, f.key);
      PutsSwap(g.key, Meaning(g.value), f.key, Meaning(f.value), MeaningFields(rest));
    }
  }

  /** Because the sort is stable, the entry that wins is the same before and after it. */
  lemma {:induction false} SortMeaning(fs: seq<Field>)
    requires WellFormedFields(fs)
    ensures WellFormedFields(SortBy(fs, FieldKey))
    ensures MeaningFields(SortBy(fs, FieldKey)) == MeaningFields(fs)
  {
    if fs != [] {
      SortMeaning(fs[1..]);
      InsertMeaning(fs[0], SortBy(fs[1..], FieldKey));
    }
  }

  lemma {:induction false} TreeOfMeans(o: Object)
    requires Supported(o)
    ensures WellFormed(TreeOf(o)) && Meaning(TreeOf(o)) == Normal(o)
    decreases o
  {
    match o
    case IntObject(n) => IntegerTextRead(n);
    case BytesObject(b) => DigitsRead(|b|);
    case TextObject(s) => DigitsRead(|Utf8.Encode(s)|);
    case ListObject(items) => TreesOfMean(items);
    case DictObject(entries) =>
      FieldsOfMean(entries);
      SortMeaning(FieldsOf(entries));
  }

  lemma {:induction false} TreesOfMean(os: seq<Object>)
    requires SupportedItems(os)
    ensures WellFormedItems(TreesOf(os)) && MeaningItems(TreesOf(os)) == NormalItems(os)
    decreases os
  {
    if os != [] {
      TreeOfMeans(os[0]);
      TreesOfMean(os[1..]);
      assert TreesOf(os)[1..] == TreesOf(os[1..]);
    }
  }

  lemma {:induction false} FieldOfMeans(e: Entry)
    requires SupportedEntry(e)
    ensures WellFormedField(FieldOf(e)) && Meaning(FieldOf(e).value) == Normal(e.value)
    decreases e
  {
    TreeOfMeans(e.value);
    DigitsRead(|KeyBytes(e.key)|);
  }

  lemma {:induction false} FieldsOfMean(es: seq<Entry>)
    requires SupportedEntries(es)
    ensures WellFormedFields(FieldsOf(es)) && MeaningFields(FieldsOf(es)) == NormalEntries(es)
    decreases es
  {
    if es != [] {
      FieldOfMeans(es[0]);
      FieldsOfMean(es[1..]);
      assert FieldsOf(es)[1..] == FieldsOf(es[1..]);
    }
  }

  // ----- What the definitions above say, entry by entry.

  /** Nothing but integers, byte strings, texts, lists and dictionaries with byte-string and
      text keys is supported, and all of these are. */
  lemma SupportedIs(o: Object)
    ensures match o
      case ListObject(items) => Supported(o) <==> forall i :: 0 <= i < |items| ==> Supported(items[i])
      case DictObject(es) =>
        Supported(o) <==> forall i :: 0 <= i < |es| ==> (es[i].key.BytesKey? || es[i].key.TextKey?) && Supported(es[i].value)
      case OtherObject => !Supported(o)
      case _ => Supported(o)
  {
    match o
    case ListObject(items) => ItemsSupported(items);
    case DictObject(es) => EntriesSupported(es);
    case _ =>
  }

  lemma {:induction false} ItemsSupported(os: seq<Object>)
    ensures SupportedItems(os) <==> forall i :: 0 <= i < |os| ==> Supported(os[i])
  {
    if os != [] {
      ItemsSupported(os[1..]);
      assert forall i :: 0 < i < |os| ==> os[i] == os[1..][i - 1];
      assert forall i :: 0 <= i < |os[1..]| ==> os[1..][i] == os[i + 1];
    }
  }

  lemma {:induction false} EntriesSupported(es: seq<Entry>)
    ensures SupportedEntries(es) <==> forall i :: 0 <= i < |es| ==> SupportedEntry(es[i])
  {
    if es != [] {
      EntriesSupported(es[1..]);
      assert forall i :: 0 < i < |es| ==> es[i] == es[1..][i - 1];
      assert forall i :: 0 <= i < |es[1..]| ==> es[1..][i] == es[i + 1];
    }
  }

  /** Of the entries whose keys have the bytes `k` the one inserted last is kept. */
  lemma {:induction false} LastEntryWins(es: seq<Entry>, k: bytes) returns (i: int)
    requires SupportedEntries(es)
    ensures -1 <= i < |es| && forall j :: i < j < |es| ==> KeyBytes(es[j].key) != k
    ensures k in NormalEntries(es) <==> i >= 0
    ensures i >= 0 ==> KeyBytes(es[i].key) == k && SupportedEntry(es[i]) && NormalEntries(es)[k] == Normal(es[i].value)
  {
    if es == [] {
      i := -1;
    } else {
      i := LastEntryWins(es[1..], k);
      if i >= 0 || KeyBytes(es[0].key) == k {
        i := i + 1;
      }
    }
  }

  /** The keys of a dictionary are written in raw-byte order: of two that differ, the one that
      is a proper prefix of the other, or smaller at the first difference, comes first. */
  lemma KeysWrittenInOrder(es: seq<Entry>, i: nat, j: nat)
    requires Supported(DictObject(es)) && i < j < |TreeOf(DictObject(es)).fields|
    ensures var fs := TreeOf(DictObject(es)).fields;
      fs[i].key == fs[j].key || Precedes(fs[i].key, fs[j].key)
  {
    SortOrders(FieldsOf(es), FieldKey, i, j);
  }
}
