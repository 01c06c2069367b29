/** The decoder's control flow as pure functions of the input and a cursor: which branch is
    taken, where the cursor ends, and which error is raised where. `BencodeDecoder` is the
    stateful form; here the functions are proved sound and complete for `BencodeGrammar`. */
module BencodeReader {
  import opened Bytes
  import opened Decimal
  import opened Utf8
  import opened BencodeGrammar

  datatype Error =
    | UnexpectedEnd
    | MissingIntegerEnd
    | MissingColon
    | StringTooLong
    | MissingListEnd
    | MissingDictEnd
    | InvalidCharacter
    | NotUtf8
    | InvalidInteger
    | InvalidLength
    | NegativeKeyLength  // not an error of the code: its cursor would move backward here
  {
    /** The errors that say the input stopped too early. */
    predicate Truncation() {
      UnexpectedEnd? || MissingIntegerEnd? || MissingColon? || StringTooLong? || MissingListEnd? || MissingDictEnd?
    }
  }

  /** A result together with the cursor it leaves behind. */
  datatype Outcome<+T> = Done(value: T, pos: nat) | Failed(error: Error, pos: nat)

  datatype Text = Text(len: bytes, body: bytes)

  /** The `while pos < len(data) and data[pos] != c` scan. */
  function Scan(data: bytes, pos: nat, c: byte): (r: nat)
    ensures pos <= r && (pos <= |data| ==> r <= |data|)
    ensures forall i :: pos <= i < r ==> i < |data| && data[i] != c
    ensures r < |data| ==> data[r] == c
    decreases |data| - pos
  {
    if pos < |data| && data[pos] != c then Scan(data, pos + 1, c) else pos
  }

  function ReadInteger(data: bytes, pos: nat): Outcome<Syntax>
    requires pos < |data|
  {
    var stop := Scan(data, pos + 1, END);
    if stop >= |data| then Failed(MissingIntegerEnd, stop)
    else if IsIntegerText(data[pos + 1..stop]) then Done(IntSyntax(data[pos + 1..stop]), stop + 1)
    else if Decodable(data[pos + 1..stop]) then Failed(InvalidInteger, stop + 1)
    else Failed(NotUtf8, stop)
  }

  function ReadString(data: bytes, pos: nat): Outcome<Text>
    requires pos <= |data|
  {
    var colon := Scan(data, pos, COLON);
    if colon >= |data| then Failed(MissingColon, colon)
    else
      var len := data[pos..colon];
      if !IsNumeral(len) then Failed(if Decodable(len) then InvalidLength else NotUtf8, colon)
      else if NumeralValue(len) < 0 then Failed(NegativeKeyLength, colon + 1)
      else if colon + 1 + NumeralValue(len) > |data| then Failed(StringTooLong, colon + 1)
      else Done(Text(len, data[colon + 1..colon + 1 + NumeralValue(len)]), colon + 1 + NumeralValue(len))
  }

  function Read(data: bytes, pos: nat): (r: Outcome<Syntax>)
    ensures r.Done? ==> pos < r.pos <= |data|
    decreases |data| - pos, 0
  {
    if pos >= |data| then Failed(UnexpectedEnd, pos)
    else if data[pos] == INTEGER then ReadInteger(data, pos)
    else if data[pos] == LIST then
      match ReadItems(data, pos + 1)
      case Done(items, q) => Done(ListSyntax(items), q)
      case Failed(e, q) => Failed(e, q)
    else if data[pos] == DICT then
      match ReadFields(data, pos + 1)
      case Done(fields, q) => Done(DictSyntax(fields), q)
      case Failed(e, q) => Failed(e, q)
    else if StartsString(data[pos]) then
      match ReadString(data, pos)
      case Done(s, q) => Done(StrSyntax(s.len, s.body), q)
      case Failed(e, q) => Failed(e, q)
    else Failed(InvalidCharacter, pos)
  }

  function ReadItems(data: bytes, pos: nat): (r: Outcome<seq<Syntax>>)
    ensures r.Done? ==> pos < r.pos <= |data|
    decreases |data| - pos, 1
  {
    if pos >= |data| then Failed(MissingListEnd, pos)
    else if data[pos] == END then Done([], pos + 1)
    else
      match Read(data, pos)
      case Failed(e, q) => Failed(e, q)
      case Done(t, q) => Prepend([t], ReadItems(data, q))
  }

  function ReadFields(data: bytes, pos: nat): (r: Outcome<seq<Field>>)
    ensures r.Done? ==> pos < r.pos <= |data|
    decreases |data| - pos, 1
  {
    if pos >= |data| then Failed(MissingDictEnd, pos)
    else if data[pos] == END then Done([], pos + 1)
    else
      match ReadField(data, pos)
      case Failed(e, q) => Failed(e, q)
      case Done(f, q) => Prepend([f], ReadFields(data, q))
  }

  /** A key and its value. The key is read as a string whatever its first byte is. */
  function ReadField(data: bytes, pos: nat): (r: Outcome<Field>)
    requires pos < |data|
    ensures r.Done? ==> pos < r.pos <= |data|
    decreases |data| - pos, 0
  {
    match ReadString(data, pos)
    case Failed(e, p) => Failed(e, p)
    case Done(s, p) =>
      match Read(data, p)
      case Failed(e, q) => Failed(e, q)
      case Done(t, q) => Done(Field(s.len, s.body, t), q)
  }

  function Prepend<T>(xs: seq<T>, rest: Outcome<seq<T>>): Outcome<seq<T>> {
    match rest
    case Done(ys, q) => Done(xs + ys, q)
    case Failed(e, q) => Failed(e, q)
  }

  // ----- The grammar placed in an input: `t` is spelled from `pos` up to `q`.

  predicate Derives(data: bytes, pos: nat, t: Syntax, q: nat) {
    WellFormed(t) && At(data, pos, Flat(t)) && q == pos + |Flat(t)|
  }

  /** List items together with the terminator that closes them. */
  predicate DerivesItems(data: bytes, pos: nat, ts: seq<Syntax>, q: nat) {
    WellFormedItems(ts) && At(data, pos, FlatItems(ts) + [END]) && q == pos + |FlatItems(ts)| + 1
  }

  predicate DerivesFields(data: bytes, pos: nat, fs: seq<Field>, q: nat) {
    WellFormedFields(fs) && At(data, pos, FlatFields(fs) + [END]) && q == pos + |FlatFields(fs)| + 1
  }

  predicate DerivesField(data: bytes, pos: nat, f: Field, q: nat) {
    WellFormedField(f) && At(data, pos, FlatField(f)) && q == pos + |FlatField(f)|
  }

  predicate DerivesText(data: bytes, pos: nat, s: Text, q: nat) {
    && IsLengthOf(s.len, s.body)
    && At(data, pos, s.len + [COLON] + s.body)
    && q == pos + |s.len| + 1 + |s.body|
  }

  lemma BracketAt(data: bytes, pos: nat, open: byte, inner: bytes)
    ensures At(data, pos, [open] + inner + [END]) <==>
            pos < |data| && data[pos] == open && At(data, pos + 1, inner + [END])
  {
  }

  lemma FirstAt(data: bytes, pos: nat, b: bytes)
    requires b != [] && At(data, pos, b)
    ensures pos < |data| && data[pos] == b[0]
  {
  }

  lemma NoItems(data: bytes, pos: nat)
    ensures DerivesItems(data, pos, [], pos + 1) <==> pos < |data| && data[pos] == END
    ensures DerivesFields(data, pos, [], pos + 1) <==> pos < |data| && data[pos] == END
  {
  }

  lemma ConsItems(data: bytes, pos: nat, t: Syntax, q: nat, ts: seq<Syntax>, q': nat)
    requires Derives(data, pos, t, q) && DerivesItems(data, q, ts, q')
    ensures DerivesItems(data, pos, [t] + ts, q')
  {
  }

  lemma UnconsItems(data: bytes, pos: nat, ts: seq<Syntax>, q': nat) returns (q: nat)
    requires ts != [] && DerivesItems(data, pos, ts, q')
    ensures Derives(data, pos, ts[0], q) && DerivesItems(data, q, ts[1..], q')
  {
    assert FlatItems(ts) + [END] == Flat(ts[0]) + (FlatItems(ts[1..]) + [END]);
    AtConcat(data, pos, Flat(ts[0]), FlatItems(ts[1..]) + [END]);
    q := pos + |Flat(ts[0])|;
  }

  lemma FieldParts(data: bytes, pos: nat, s: Text, t: Syntax, q: nat)
    ensures var p := pos + |s.len| + 1 + |s.body|;
      DerivesField(data, pos, Field(s.len, s.body, t), q) <==> DerivesText(data, pos, s, p) && Derives(data, p, t, q)
  {
  }

  lemma ConsFields(data: bytes, pos: nat, f: Field, q: nat, fs: seq<Field>, q': nat)
    requires DerivesField(data, pos, f, q) && DerivesFields(data, q, fs, q')
    ensures DerivesFields(data, pos, [f] + fs, q')
  {
  }

  lemma UnconsFields(data: bytes, pos: nat, fs: seq<Field>, q': nat) returns (q: nat)
    requires fs != [] && DerivesFields(data, pos, fs, q')
    ensures DerivesField(data, pos, fs[0], q) && DerivesFields(data, q, fs[1..], q')
  {
    assert FlatFields(fs) + [END] == FlatField(fs[0]) + (FlatFields(fs[1..]) + [END]);
    AtConcat(data, pos, FlatField(fs[0]), FlatFields(fs[1..]) + [END]);
    q := pos + |FlatField(fs[0])|;
  }

  // ----- Soundness: what is read is in the grammar and spells exactly the bytes consumed.

  lemma StringSound(data: bytes, pos: nat)
    requires pos <= |data|
    ensures var r := ReadString(data, pos);
      r.Done? ==> DerivesText(data, pos, r.value, r.pos) && (StartsString(data[pos]) ==> IsDigit(r.value.len[0]))
  {
  }

  lemma IntegerSound(data: bytes, pos: nat)
    requires pos < |data| && data[pos] == INTEGER
    ensures var r := ReadInteger(data, pos);
      r.Done? ==> Derives(data, pos, r.value, r.pos)
  {
  }

  lemma {:induction false} ReadSound(data: bytes, pos: nat)
    ensures var r := Read(data, pos); r.Done? ==> Derives(data, pos, r.value, r.pos)
    decreases |data| - pos, 0
  {
    if pos < |data| {
      if data[pos] == INTEGER {
        IntegerSound(data, pos);
      } else if data[pos] == LIST {
        ReadItemsSound(data, pos + 1);
        var r := ReadItems(data, pos + 1);
        if r.Done? {
          BracketAt(data, pos, LIST, FlatItems(r.value));
        }
      } else if data[pos] == DICT {
        ReadFieldsSound(data, pos + 1);
        var r := ReadFields(data, pos + 1);
        if r.Done? {
          BracketAt(data, pos, DICT, FlatFields(r.value));
        }
      } else {
        StringSound(data, pos);
      }
    }
  }

  lemma {:induction false} ReadItemsSound(data: bytes, pos: nat)
    ensures var r := ReadItems(data, pos); r.Done? ==> DerivesItems(data, pos, r.value, r.pos)
    decreases |data| - pos, 1
  {
    if pos < |data| {
      if data[pos] == END {
        NoItems(data, pos);
      } else {
        ReadSound(data, pos);
        var t := Read(data, pos);
        if t.Done? {
          ReadItemsSound(data, t.pos);
          var ts := ReadItems(data, t.pos);
          if ts.Done? {
            ConsItems(data, pos, t.value, t.pos, ts.value, ts.pos);
          }
        }
      }
    }
  }

  lemma {:induction false} ReadFieldsSound(data: bytes, pos: nat)
    ensures var r := ReadFields(data, pos); r.Done? ==> DerivesFields(data, pos, r.value, r.pos)
    decreases |data| - pos, 1
  {
    if pos < |data| {
      if data[pos] == END {
        NoItems(data, pos);
      } else {
        ReadFieldSound(data, pos);
        var f := ReadField(data, pos);
        if f.Done? {
          ReadFieldsSound(data, f.pos);
          var fs := ReadFields(data, f.pos);
          if fs.Done? {
            ConsFields(data, pos, f.value, f.pos, fs.value, fs.pos);
          }
        }
      }
    }
  }

  lemma {:induction false} ReadFieldSound(data: bytes, pos: nat)
    requires pos < |data|
    ensures var r := ReadField(data, pos); r.Done? ==> DerivesField(data, pos, r.value, r.pos)
    decreases |data| - pos, 0
  {
    StringSound(data, pos);
    var s := ReadString(data, pos);
    if s.Done? {
      ReadSound(data, s.pos);
      var t := Read(data, s.pos);
      if t.Done? {
        FieldParts(data, pos, s.value, t.value, t.pos);
      }
    }
  }

  // ----- Completeness: wherever a well-formed tree is spelled, exactly that tree is read.

  lemma ScanIs(data: bytes, pos: nat, c: byte, r: nat)
    requires pos <= r < |data| && data[r] == c
    requires forall i :: pos <= i < r ==> data[i] != c
    ensures Scan(data, pos, c) == r
  {
  }

  lemma IntegerTextHasNoEnd(t: bytes)
    requires IsIntegerText(t)
    ensures END !in t
  {
  }

  lemma NumeralHasNoColon(t: bytes)
    requires IsNumeral(t)
    ensures COLON !in t
  {
  }

  /** What is read as a number has been decoded as text before. */
  lemma NumbersDecodable(t: bytes)
    ensures IsNumeral(t) || IsIntegerText(t) ==> Decodable(t)
  {
    if IsNumeral(t) || IsIntegerText(t) {
      AsciiDecodable(t);
    }
  }

  lemma StringComplete(data: bytes, pos: nat, s: Text, q: nat)
    requires DerivesText(data, pos, s, q)
    ensures ReadString(data, pos) == Done(s, q)
    ensures data[pos] == s.len[0] && data[pos] != END
  {
    AtConcat(data, pos, s.len + [COLON], s.body);
    AtConcat(data, pos, s.len, [COLON]);
    NumeralHasNoColon(s.len);
    var colon := pos + |s.len|;
    assert data[pos..colon] == s.len;
    forall i | pos <= i < colon ensures data[i] != COLON {
      assert data[i] == s.len[i - pos];
    }
    FirstAt(data, pos, s.len);
    FirstAt(data, colon, [COLON]);
    ScanIs(data, pos, COLON, colon);
    assert data[colon + 1..q] == s.body;
  }

  lemma IntegerComplete(data: bytes, pos: nat, text: bytes)
    requires IsIntegerText(text) && At(data, pos, [INTEGER] + text + [END])
    ensures ReadInteger(data, pos) == Done(IntSyntax(text), pos + |text| + 2)
  {
    BracketAt(data, pos, INTEGER, text);
    AtConcat(data, pos + 1, text, [END]);
    IntegerTextHasNoEnd(text);
    var stop := pos + 1 + |text|;
    assert data[pos + 1..stop] == text;
    forall i | pos + 1 <= i < stop ensures data[i] != END {
      assert data[i] == text[i - pos - 1];
    }
    FirstAt(data, stop, [END]);
    ScanIs(data, pos + 1, END, stop);
  }

  /** The first byte decides the branch, and is never the terminator. */
  lemma FirstByte(data: bytes, pos: nat, t: Syntax, q: nat)
    requires Derives(data, pos, t, q)
    ensures pos < |data| && data[pos] != END
    ensures data[pos] == match t
                         case IntSyntax(_) => INTEGER
                         case StrSyntax(len, _) => len[0]
                         case ListSyntax(_) => LIST
                         case DictSyntax(_) => DICT
  {
  }

  lemma {:induction false} ReadComplete(data: bytes, pos: nat, t: Syntax, q: nat)
    requires Derives(data, pos, t, q)
    ensures Read(data, pos) == Done(t, q)
    decreases t, 0
  {
    FirstByte(data, pos, t, q);
    match t
    case IntSyntax(text) =>
      IntegerComplete(data, pos, text);
    case StrSyntax(len, body) =>
      StringComplete(data, pos, Text(len, body), q);
    case ListSyntax(items) =>
      BracketAt(data, pos, LIST, FlatItems(items));
      ReadItemsComplete(data, pos + 1, items, q);
    case DictSyntax(fields) =>
      BracketAt(data, pos, DICT, FlatFields(fields));
      ReadFieldsComplete(data, pos + 1, fields, q);
  }

  lemma {:induction false} ReadItemsComplete(data: bytes, pos: nat, ts: seq<Syntax>, q': nat)
    requires DerivesItems(data, pos, ts, q')
    ensures ReadItems(data, pos) == Done(ts, q')
    decreases ts, 1
  {
    if ts == [] {
      NoItems(data, pos);
    } else {
      var q := UnconsItems(data, pos, ts, q');
      FirstByte(data, pos, ts[0], q);
      ReadComplete(data, pos, ts[0], q);
      ReadItemsComplete(data, q, ts[1..], q');
      assert ts == [ts[0]] + ts[1..];
    }
  }

  lemma {:induction false} ReadFieldsComplete(data: bytes, pos: nat, fs: seq<Field>, q': nat)
    requires DerivesFields(data, pos, fs, q')
    ensures ReadFields(data, pos) == Done(fs, q')
    decreases fs, 1
  {
    if fs == [] {
      NoItems(data, pos);
    } else {
      var q := UnconsFields(data, pos, fs, q');
      ReadFieldComplete(data, pos, fs[0], q);
      ReadFieldsComplete(data, q, fs[1..], q');
      assert fs == [fs[0]] + fs[1..];
    }
  }

  lemma {:induction false} ReadFieldComplete(data: bytes, pos: nat, f: Field, q: nat)
    requires DerivesField(data, pos, f, q)
    ensures pos < |data| && data[pos] != END && ReadField(data, pos) == Done(f, q)
    decreases f, 1
  {
    var p := pos + |f.len| + 1 + |f.key|;
    FieldParts(data, pos, Text(f.len, f.key), f.value, q);
    StringComplete(data, pos, Text(f.len, f.key), p);
    ReadComplete(data, p, f.value, q);
  }

  /** The control flow is the grammar: the reader succeeds at `pos` with a tree and a cursor
      exactly when that tree is spelled between the two. Hence at most one tree is spelled
      at any place. */
  lemma ReadIffDerives(data: bytes, pos: nat, t: Syntax, q: nat)
    ensures Read(data, pos) == Done(t, q) <==> Derives(data, pos, t, q)
  {
    ReadSound(data, pos);
    if Derives(data, pos, t, q) {
      ReadComplete(data, pos, t, q);
    }
  }

  /** What decoding at `pos` yields: the meaning of the tree read there. */
  function DecodeAt(data: bytes, pos: nat): Outcome<Value> {
    ReadSound(data, pos);
    match Read(data, pos)
    case Done(t, q) => Done(Meaning(t), q)
    case Failed(e, q) => Failed(e, q)
  }

  // ----- Stability: only a truncation error can go away when more bytes arrive.

  predicate Settled<T>(r: Outcome<T>) {
    r.Failed? ==> !r.error.Truncation()
  }

  lemma {:induction false} ScanStable(data: bytes, more: bytes, pos: nat, c: byte)
    requires Scan(data, pos, c) < |data|
    ensures Scan(data + more, pos, c) == Scan(data, pos, c)
    decreases |data| - pos
  {
    if data[pos] != c {
      ScanStable(data, more, pos + 1, c);
    }
  }

  lemma StringStable(data: bytes, more: bytes, pos: nat)
    requires pos <= |data| && Settled(ReadString(data, pos))
    ensures ReadString(data + more, pos) == ReadString(data, pos)
  {
    ScanStable(data, more, pos, COLON);
    var colon := Scan(data, pos, COLON);
    assert (data + more)[pos..colon] == data[pos..colon];
    var r := ReadString(data, pos);
    if r.Done? {
      assert (data + more)[colon + 1..r.pos] == data[colon + 1..r.pos];
    }
  }

  lemma IntegerStable(data: bytes, more: bytes, pos: nat)
    requires pos < |data| && Settled(ReadInteger(data, pos))
    ensures ReadInteger(data + more, pos) == ReadInteger(data, pos)
  {
    ScanStable(data, more, pos + 1, END);
    var stop := Scan(data, pos + 1, END);
    assert (data + more)[pos + 1..stop] == data[pos + 1..stop];
  }

  /** A success, and every error other than a truncation, is decided by the bytes already
      there: any extension of the input gives the same outcome at the same cursor. */
  lemma {:induction false} ReadStable(data: bytes, more: bytes, pos: nat)
    requires Settled(Read(data, pos))
    ensures Read(data + more, pos) == Read(data, pos)
    decreases |data| - pos, 0
  {
    assert (data + more)[pos] == data[pos];
    if data[pos] == INTEGER {
      IntegerStable(data, more, pos);
    } else if data[pos] == LIST {
      ReadItemsStable(data, more, pos + 1);
    } else if data[pos] == DICT {
      ReadFieldsStable(data, more, pos + 1);
    } else if StartsString(data[pos]) {
      StringStable(data, more, pos);
    }
  }

  lemma {:induction false} ReadItemsStable(data: bytes, more: bytes, pos: nat)
    requires Settled(ReadItems(data, pos))
    ensures ReadItems(data + more, pos) == ReadItems(data, pos)
    decreases |data| - pos, 1
  {
    assert (data + more)[pos] == data[pos];
    if data[pos] != END {
      ReadStable(data, more, pos);
      var t := Read(data, pos);
      if t.Done? {
        ReadItemsStable(data, more, t.pos);
      }
    }
  }

  lemma {:induction false} ReadFieldsStable(data: bytes, more: bytes, pos: nat)
    requires Settled(ReadFields(data, pos))
    ensures ReadFields(data + more, pos) == ReadFields(data, pos)
    decreases |data| - pos, 1
  {
    assert (data + more)[pos] == data[pos];
    if data[pos] != END {
      ReadFieldStable(data, more, pos);
      var f := ReadField(data, pos);
      if f.Done? {
        ReadFieldsStable(data, more, f.pos);
      }
    }
  }

  lemma {:induction false} ReadFieldStable(data: bytes, more: bytes, pos: nat)
    requires pos < |data| && Settled(ReadField(data, pos))
    ensures ReadField(data + more, pos) == ReadField(data, pos)
    decreases |data| - pos, 0
  {
    StringStable(data, more, pos);
    var s := ReadString(data, pos);
    if s.Done? {
      ReadStable(data, more, s.pos);
    }
  }
}
