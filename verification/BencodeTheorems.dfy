/** What encoder and decoder promise together. */
module BencodeTheorems {
  import opened Bytes
  import opened Decimal
  import opened StableSort
  import Utf8
  import opened BencodeGrammar
  import opened BencodeReader
  import opened BencodeEncoder
  import opened BencodeCanonical

  function Encoding(o: Object): bytes
    requires Supported(o)
  {
    Flat(TreeOf(o))
  }

  // ----- Decoding undoes encoding.

  lemma EncodingDerives(o: Object, data: bytes, pos: nat)
    requires Supported(o) && At(data, pos, Encoding(o))
    ensures Read(data, pos) == Done(TreeOf(o), pos + |Encoding(o)|)
  {
    TreeOfMeans(o);
    ReadComplete(data, pos, TreeOf(o), pos + |Encoding(o)|);
  }

  /** Wherever an encoding stands in an input, and whatever follows it, decoding there gives
      back the object's normal form and stops exactly behind the encoding. */
  lemma RoundTrip(o: Object, data: bytes, pos: nat)
    requires Supported(o) && At(data, pos, Encoding(o))
    ensures DecodeAt(data, pos) == Done(Normal(o), pos + |Encoding(o)|)
  {
    EncodingDerives(o, data, pos);
    TreeOfMeans(o);
  }

  /** Two objects have the same encoding exactly when they have the same normal form, as long
      as no two keys of a dictionary collide. So insertion order never shows, and nothing
      else is lost. */
  lemma SameEncodingIffSameNormal(o: Object, o': Object)
    requires Supported(o) && Supported(o') && DistinctKeys(o) && DistinctKeys(o')
    ensures Encoding(o) == Encoding(o') <==> Normal(o) == Normal(o')
  {
    TreeOfMeans(o);
    TreeOfMeans(o');
    if Encoding(o) == Encoding(o') {
      RoundTrip(o, Encoding(o), 0);
      RoundTrip(o', Encoding(o), 0);
    }
    if Normal(o) == Normal(o') {
      TreeOfCanonical(o);
      TreeOfCanonical(o');
      CanonicalUnique(TreeOf(o), TreeOf(o'));
    }
  }

  // ----- Encodings are self-delimiting.

  /** Every proper prefix of an encoding is refused, and refused as cut short. */
  lemma TruncationDetected(o: Object, p: bytes)
    requires Supported(o) && p < Encoding(o)
    ensures DecodeAt(p, 0).Failed? && DecodeAt(p, 0).error.Truncation()
  {
    EncodingDerives(o, Encoding(o), 0);
    if Settled(Read(p, 0)) {
      var rest := Encoding(o)[|p|..];
      assert p + rest == Encoding(o);
      ReadStable(p, rest, 0);
    }
  }

  lemma PrefixFree(o: Object, o': Object, x: bytes, y: bytes)
    requires Supported(o) && Supported(o')
    requires Encoding(o) + x == Encoding(o') + y
    ensures Encoding(o) == Encoding(o') && x == y && Normal(o) == Normal(o')
  {
    var data := Encoding(o) + x;
    RoundTrip(o, data, 0);
    RoundTrip(o', data, 0);
    assert Encoding(o) == data[..|Encoding(o)|] == Encoding(o');
    assert x == data[|Encoding(o)|..] == y;
  }

  function Concat(os: seq<Object>): bytes
    requires SupportedItems(os)
  {
    if os == [] then [] else Encoding(os[0]) + Concat(os[1..])
  }

  lemma FlatAtLeastTwo(t: Syntax)
    requires WellFormed(t)
    ensures |Flat(t)| >= 2
  {
  }

  /** A concatenation of encodings splits in only one way: as many pieces, the same bytes in
      each, and so the same normal forms. */
  lemma {:induction false} SplitUnique(os: seq<Object>, os': seq<Object>)
    requires SupportedItems(os) && SupportedItems(os') && Concat(os) == Concat(os')
    ensures |os| == |os'| && NormalItems(os) == NormalItems(os')
    ensures forall i :: 0 <= i < |os| ==>
              Supported(os[i]) && Supported(os'[i]) && Encoding(os[i]) == Encoding(os'[i])
  {
    if os != [] {
      TreeOfMeans(os[0]);
      FlatAtLeastTwo(TreeOf(os[0]));
    }
    if os' != [] {
      TreeOfMeans(os'[0]);
      FlatAtLeastTwo(TreeOf(os'[0]));
    }
    if os != [] && os' != [] {
      PrefixFree(os[0], os'[0], Concat(os[1..]), Concat(os'[1..]));
      SplitUnique(os[1..], os'[1..]);
      forall i | 0 < i < |os|
        ensures Supported(os[i]) && Supported(os'[i]) && Encoding(os[i]) == Encoding(os'[i])
      {
        assert os[i] == os[1..][i - 1] && os'[i] == os'[1..][i - 1];
      }
    }
  }

  // ----- Decoding depends only on the bytes it consumes.

  /** A success consumes at least two bytes, stays inside the input, and is the same in any
      other input, at any other place, that holds the same bytes. */
  lemma DecodeLocal(data: bytes, pos: nat, data': bytes, pos': nat)
    requires DecodeAt(data, pos).Done?
    ensures pos + 2 <= DecodeAt(data, pos).pos <= |data|
    ensures At(data', pos', data[pos..DecodeAt(data, pos).pos]) ==>
              DecodeAt(data', pos') ==
              Done(DecodeAt(data, pos).value, pos' + DecodeAt(data, pos).pos - pos)
  {
    ReadSound(data, pos);
    var r := Read(data, pos);
    FlatAtLeastTwo(r.value);
    assert data[pos..r.pos] == Flat(r.value);
    if At(data', pos', Flat(r.value)) {
      ReadComplete(data', pos', r.value, pos' + |Flat(r.value)|);
    }
  }

  // ----- The object a decode really returns: dictionaries in the order keys were first seen.

  /** `result[key] = value` on an ordered dictionary. */
  function Store(es: seq<Entry>, k: bytes, v: Object): seq<Entry> {
    if es == [] then [Entry(BytesKey(k), v)]
    else if EntryKey(es[0]) == k then [Entry(es[0].key, v)] + es[1..]
    else [es[0]] + Store(es[1..], k, v)
  }

  function Decoded(t: Syntax): Object
    requires WellFormed(t)
  {
    match t
    case IntSyntax(text) => IntObject(IntegerValue(text))
    case StrSyntax(_, body) => BytesObject(body)
    case ListSyntax(items) => ListObject(DecodedItems(items))
    case DictSyntax(fields) => DictObject(DecodedFields(fields, []))
  }

  function DecodedItems(ts: seq<Syntax>): seq<Object>
    requires WellFormedItems(ts)
  {
    if ts == [] then [] else [Decoded(ts[0])] + DecodedItems(ts[1..])
  }

  function DecodedFields(fs: seq<Field>, stored: seq<Entry>): seq<Entry>
    requires WellFormedFields(fs)
    decreases fs
  {
    if fs == [] then stored
    else DecodedFields(fs[1..], Store(stored, fs[0].key, DecodedValue(fs[0])))
  }

  function DecodedValue(f: Field): Object
    requires WellFormedField(f)
    decreases f
  {
    Decoded(f.value)
  }

  /** `o` is a Python object for the value `v`, with its dictionaries in any order. */
  ghost predicate Represents(o: Object, v: Value) {
    Supported(o) && DistinctKeys(o) && Normal(o) == v
  }

  ghost predicate RepresentsEntries(es: seq<Entry>, m: map<bytes, Value>) {
    SupportedEntries(es) && DistinctInEntries(es) && NormalEntries(es) == m
  }

  lemma ConsRepresents(e: Entry, x: Value, es: seq<Entry>, m: map<bytes, Value>)
    requires RepresentsEntries(es, m) && Represents(e.value, x) && !e.key.OtherKey?
    requires EntryKey(e) !in m
    ensures RepresentsEntries([e] + es, map[EntryKey(e) := x] + m)
  {
  }

  lemma PutLast(k: bytes, x: Value, k': bytes, x': Value, m: map<bytes, Value>)
    ensures k' == k ==> (map[k := x] + m)[k' := x'] == map[k' := x'] + m[k' := x']
    ensures k' != k ==> (map[k := x] + m)[k' := x'] == map[k := x] + m[k' := x']
    ensures k' !in m ==> map[k' := x'] + m == m[k' := x']
  {
  }

  /** Storing writes one key of the dictionary and no other. */
  lemma {:induction false} StoreRepresents(es: seq<Entry>, m: map<bytes, Value>, k: bytes, v: Object, x: Value)
    requires RepresentsEntries(es, m) && Represents(v, x)
    ensures RepresentsEntries(Store(es, k, v), m[k := x])
  {
    if es == [] {
      ConsRepresents(Entry(BytesKey(k), v), x, [], m);
    } else {
      var e, rest := es[0], es[1..];
      var m' := NormalEntries(rest);
      assert SupportedEntry(e) && DistinctInEntry(e);
      PutLast(EntryKey(e), Normal(e.value), k, x, m');
      if EntryKey(e) == k {
        ConsRepresents(Entry(e.key, v), x, rest, m');
        assert map[k := x] + m' == m[k := x];
      } else {
        StoreRepresents(rest, m', k, v, x);
        ConsRepresents(e, Normal(e.value), Store(rest, k, v), m'[k := x]);
      }
    }
  }

  lemma FieldsOfCons(e: Entry, es: seq<Entry>)
    requires SupportedEntry(e) && SupportedEntries(es)
    ensures SupportedEntries([e] + es)
    ensures |FlatFields(FieldsOf([e] + es))| == |FlatField(FieldOf(e))| + |FlatFields(FieldsOf(es))|
  {
  }

  /** Storing costs no more bytes than the entry stored. */
  lemma {:induction false} StoreLength(es: seq<Entry>, k: bytes, v: Object)
    requires SupportedEntries(es) && Supported(v)
    ensures SupportedEntries(Store(es, k, v))
    ensures |FlatFields(FieldsOf(Store(es, k, v)))| <=
            |FlatFields(FieldsOf(es))| + |FlatField(StringField(k, TreeOf(v)))|
  {
    if es == [] {
      FieldsOfCons(Entry(BytesKey(k), v), []);
      assert [Entry(BytesKey(k), v)] + [] == [Entry(BytesKey(k), v)];
    } else {
      var e, rest := es[0], es[1..];
      assert es == [e] + rest && SupportedEntry(e);
      FieldsOfCons(e, rest);
      if EntryKey(e) == k {
        FieldsOfCons(Entry(e.key, v), rest);
      } else {
        StoreLength(rest, k, v);
        FieldsOfCons(e, Store(rest, k, v));
      }
    }
  }

  lemma {:induction false} SortKeepsLength(fs: seq<Field>)
    ensures |FlatFields(SortBy(fs, FieldKey))| == |FlatFields(fs)|
  {
    if fs != [] {
      SortKeepsLength(fs[1..]);
      InsertAddsLength(fs[0], SortBy(fs[1..], FieldKey));
    }
  }

  lemma {:induction false} InsertAddsLength(f: Field, fs: seq<Field>)
    ensures |FlatFields(InsertBy(f, fs, FieldKey))| == |FlatField(f)| + |FlatFields(fs)|
  {
    if fs == [] || !Below(fs[0].key, f.key) {
      assert ([f] + fs)[1..] == fs;
    } else {
      InsertAddsLength(f, fs[1..]);
      var r := InsertBy(f, fs[1..], FieldKey);
      assert ([fs[0]] + r)[1..] == r;
    }
  }

  /** The decoded object stands for the decoded value, and encoding it again never takes more
      bytes than were read. */
  lemma {:induction false} DecodedRepresents(t: Syntax)
    requires WellFormed(t)
    ensures Represents(Decoded(t), Meaning(t)) && |Encoding(Decoded(t))| <= |Flat(t)|
    decreases t
  {
    match t
    case IntSyntax(text) => IntegerTextOfValue(text);
    case StrSyntax(len, body) => LengthTextOfValue(len);
    case ListSyntax(items) => DecodedItemsRepresent(items);
    case DictSyntax(fields) =>
      DecodedFieldsRepresent(fields, [], map[]);
      DecodedFieldsLength(fields, []);
      SortKeepsLength(FieldsOf(DecodedFields(fields, [])));
      assert map[] + MeaningFields(fields) == MeaningFields(fields);
  }

  lemma {:induction false} DecodedItemsRepresent(ts: seq<Syntax>)
    requires WellFormedItems(ts)
    ensures SupportedItems(DecodedItems(ts)) && DistinctInItems(DecodedItems(ts))
    ensures NormalItems(DecodedItems(ts)) == MeaningItems(ts)
    ensures |FlatItems(TreesOf(DecodedItems(ts)))| <= |FlatItems(ts)|
    decreases ts
  {
    if ts != [] {
      DecodedRepresents(ts[0]);
      DecodedItemsRepresent(ts[1..]);
      var os := DecodedItems(ts);
      assert os[1..] == DecodedItems(ts[1..]);
      assert TreesOf(os)[1..] == TreesOf(os[1..]);
    }
  }

  lemma {:induction false} DecodedValueRepresents(f: Field)
    requires WellFormedField(f)
    ensures Represents(DecodedValue(f), Meaning(f.value))
    ensures |FlatField(StringField(f.key, TreeOf(DecodedValue(f))))| <= |FlatField(f)|
    decreases f
  {
    DecodedRepresents(f.value);
    LengthTextOfValue(f.len);
  }

  lemma PutThenMore(m: map<bytes, Value>, k: bytes, x: Value, more: map<bytes, Value>)
    ensures m[k := x] + more == m + (map[k := x] + more)
  {
  }

  lemma {:induction false} DecodedFieldsRepresent(fs: seq<Field>, stored: seq<Entry>, m: map<bytes, Value>)
    requires WellFormedFields(fs) && RepresentsEntries(stored, m)
    ensures RepresentsEntries(DecodedFields(fs, stored), m + MeaningFields(fs))
    decreases fs
  {
    if fs == [] {
      assert m + MeaningFields(fs) == m;
    } else {
      var f := fs[0];
      assert WellFormedField(f);
      DecodedValueRepresents(f);
      var v, x := DecodedValue(f), Meaning(f.value);
      StoreRepresents(stored, m, f.key, v, x);
      DecodedFieldsRepresent(fs[1..], Store(stored, f.key, v), m[f.key := x]);
      PutThenMore(m, f.key, x, MeaningFields(fs[1..]));
    }
  }

  lemma {:induction false} DecodedFieldsLength(fs: seq<Field>, stored: seq<Entry>)
    requires WellFormedFields(fs) && SupportedEntries(stored)
    ensures SupportedEntries(DecodedFields(fs, stored))
    ensures |FlatFields(FieldsOf(DecodedFields(fs, stored)))| <= |FlatFields(FieldsOf(stored))| + |FlatFields(fs)|
    decreases fs
  {
    if fs != [] {
      var f := fs[0];
      assert WellFormedField(f);
      DecodedValueRepresents(f);
      StoreLength(stored, f.key, DecodedValue(f));
      DecodedFieldsLength(fs[1..], Store(stored, f.key, DecodedValue(f)));
    }
  }

  // ----- Encoding what was decoded.

  /** Re-encoding a decoded value, held in dictionaries of any order: the bytes never grow,
      they decode to the same value, and they are the bytes consumed exactly when those were
      canonical. */
  lemma Reencode(data: bytes, pos: nat, t: Syntax, q: nat, o: Object)
    requires Read(data, pos) == Done(t, q) && DecodeAt(data, pos).Done?
    requires Represents(o, DecodeAt(data, pos).value)
    ensures |Encoding(o)| <= q - pos
    ensures pos <= q <= |data| && (Encoding(o) == data[pos..q] <==> Canonical(t))
    ensures DecodeAt(Encoding(o), 0) == Done(DecodeAt(data, pos).value, |Encoding(o)|)
  {
    ReadSound(data, pos);
    assert data[pos..q] == Flat(t);
    DecodedRepresents(t);
    SameEncodingIffSameNormal(o, Decoded(t));
    RoundTrip(o, Encoding(o), 0);
    TreeOfCanonical(o);
    TreeOfMeans(o);
    if Encoding(o) == Flat(t) {
      ReadComplete(Flat(t), 0, t, |Flat(t)|);
      ReadComplete(Flat(t), 0, TreeOf(o), |Flat(t)|);
    }
    if Canonical(t) {
      CanonicalUnique(t, TreeOf(o));
    }
  }

  /** Encoding is a normal form: whatever object a decoded encoding comes back as, encoding it
      again changes nothing. */
  lemma ReencodeStable(o: Object, o': Object)
    requires Supported(o) && DistinctKeys(o)
    requires DecodeAt(Encoding(o), 0).Done? && Represents(o', DecodeAt(Encoding(o), 0).value)
    ensures Encoding(o') == Encoding(o)
  {
    RoundTrip(o, Encoding(o), 0);
    SameEncodingIffSameNormal(o, o');
  }

  /** Decoding an encoding and encoding the result gives the same bytes exactly when no two
      keys of a dictionary collided; the encoding is canonical in the same cases. */
  lemma ReencodeFixedIffDistinct(o: Object, o': Object)
    requires Supported(o) && Represents(o', Normal(o))
    ensures Encoding(o') == Encoding(o) <==> DistinctKeys(o)
    ensures Read(Encoding(o), 0) == Done(TreeOf(o), |Encoding(o)|) && (Canonical(TreeOf(o)) <==> DistinctKeys(o))
  {
    EncodingDerives(o, Encoding(o), 0);
    TreeOfCanonical(o);
    TreeOfCanonical(o');
    if DistinctKeys(o) {
      SameEncodingIffSameNormal(o, o');
    } else if Encoding(o') == Encoding(o) {
      EncodingDerives(o', Encoding(o), 0);
    }
  }

  /** `{"a": 1, b"a": 2}`: one key as text and once more as the bytes it is encoded to. */
  const COLLIDING: Object :=
    DictObject([Entry(TextKey("a"), IntObject(1)), Entry(BytesKey([97]), IntObject(2))])

  lemma CollidingKeys()
    ensures Supported(COLLIDING) && !DistinctKeys(COLLIDING)
    ensures Represents(DictObject([Entry(BytesKey([97]), IntObject(2))]), Normal(COLLIDING))
    ensures Encoding(DictObject([Entry(BytesKey([97]), IntObject(2))])) != Encoding(COLLIDING)
  {
    var e, f := Entry(TextKey("a"), IntObject(1)), Entry(BytesKey([97]), IntObject(2));
    assert Utf8.Encode("a") == Utf8.EncodeChar('a') + Utf8.Encode("") == [97];
    assert [e, f][1..] == [f] && [f][1..] == [];
    assert SupportedEntry(e) && SupportedEntry(f) && SupportedEntries([f]) && SupportedEntries([e, f]);
    assert NormalEntries([f]) == map[[97] := Normal(f.value)];
    ReencodeFixedIffDistinct(COLLIDING, DictObject([f]));
  }
}
