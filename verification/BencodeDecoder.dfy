/** The decoder as the repository has it: one cursor, moved forward by while loops, with
    results appended to lists and stored into dictionaries as they are read. Every method is
    proved to do exactly what `BencodeReader` says, error and final cursor included. */
module BencodeDecoder {
  import opened Wrappers
  import opened Bytes
  import opened Decimal
  import opened Utf8
  import opened BencodeGrammar
  import opened BencodeReader

  /** What a call returned or raised, with the cursor it left. */
  function AsOutcome<T>(r: Result<T, Error>, pos: nat): Outcome<T> {
    match r
    case Ok(v) => Done(v, pos)
    case Err(e) => Failed(e, pos)
  }

  class BencodeDecoder {
    const data: bytes
    var pos: nat

    constructor (data: bytes)
      ensures this.data == data && pos == 0
    {
      this.data := data;
      pos := 0;
    }

    method Decode() returns (r: Result<Value, Error>)
      modifies this`pos
      ensures AsOutcome(r, pos) == DecodeAt(data, old(pos))
      decreases |data| - pos, 1
    {
      if pos >= |data| {
        return Err(UnexpectedEnd);
      }
      var first := data[pos];
      if first == INTEGER {
        r := DecodeInteger();
      } else if first == LIST {
        r := DecodeList();
      } else if first == DICT {
        r := DecodeDict();
      } else if StartsString(first) {
        StringSound(data, pos);
        var s := DecodeString();
        r := match s case Ok(body) => Ok(Str(body)) case Err(e) => Err(e);
      } else {
        r := Err(InvalidCharacter);
      }
    }

    method DecodeInteger() returns (r: Result<Value, Error>)
      requires pos < |data| && data[pos] == INTEGER
      modifies this`pos
      ensures AsOutcome(r, pos) == DecodeAt(data, old(pos))
    {
      pos := pos + 1;
      var start := pos;
      while pos < |data| && data[pos] != END
        invariant start <= pos <= |data|
        invariant Scan(data, start, END) == Scan(data, pos, END)
      {
        pos := pos + 1;
      }
      IntegerOutcome(data, start - 1, pos, data[start..pos]);
      if pos >= |data| {
        return Err(MissingIntegerEnd);
      }
      var text := data[start..pos];
      if !Decodable(text) {
        return Err(NotUtf8);
      }
      pos := pos + 1;
      r := ParseNumber(text);
    }

    /** The end of `_decode_integer`, which looks at the text only. */
    static method ParseNumber(text: bytes) returns (r: Result<Value, Error>)
      ensures r == if IsIntegerText(text) then Ok(Int(IntegerValue(text))) else Err(InvalidInteger)
    {
      if |text| > 0 && text[0] == MINUS {
        if |text| == 1 || !IsNumeral(text[1..]) {
          return Err(InvalidInteger);
        }
        return Ok(Int(0 - NumeralValue(text[1..])));
      }
      if |text| > 0 && text[0] == ZERO && |text| > 1 {
        return Err(InvalidInteger);
      }
      if !IsNumeral(text) {
        return Err(InvalidInteger);
      }
      return Ok(Int(NumeralValue(text)));
    }

    method DecodeString() returns (r: Result<bytes, Error>)
      requires pos <= |data|
      modifies this`pos
      ensures match ReadString(data, old(pos))
              case Done(s, q) => r == Ok(s.body) && pos == q
              case Failed(e, q) => r == Err(e) && pos == q
    {
      var start := pos;
      while pos < |data| && data[pos] != COLON
        invariant start <= pos <= |data|
        invariant Scan(data, start, COLON) == Scan(data, pos, COLON)
      {
        pos := pos + 1;
      }
      if pos >= |data| {
        return Err(MissingColon);
      }
      var len := data[start..pos];
      if !Decodable(len) {
        NumbersDecodable(len);
        return Err(NotUtf8);
      }
      if !IsNumeral(len) {
        return Err(InvalidLength);
      }
      var length := NumeralValue(len);
      pos := pos + 1;
      if length < 0 {
        return Err(NegativeKeyLength);
      }
      if pos + length > |data| {
        return Err(StringTooLong);
      }
      r := Ok(data[pos..pos + length]);
      pos := pos + length;
    }

    method DecodeList() returns (r: Result<Value, Error>)
      requires pos < |data| && data[pos] == LIST
      modifies this`pos
      ensures AsOutcome(r, pos) == DecodeAt(data, old(pos))
      decreases |data| - pos, 0
    {
      pos := pos + 1;
      var result: seq<Value> := [];
      ghost var start, read: seq<Syntax> := pos, [];
      PrependNothing(ReadItems(data, pos));
      while pos < |data| && data[pos] != END
        invariant start <= pos
        invariant WellFormedItems(read) && result == MeaningItems(read)
        invariant ReadItems(data, start) == Prepend(read, ReadItems(data, pos))
        decreases |data| - pos
      {
        ghost var before := pos;
        var item := Decode();
        if item.Err? {
          return item;
        }
        ReadSound(data, before);
        ghost var t := Read(data, before).value;
        MeaningItemsAppend(read, t);
        PrependTwice(read, [t], ReadItems(data, pos));
        result, read := result + [item.value], read + [t];
      }
      if pos >= |data| {
        return Err(MissingListEnd);
      }
      pos := pos + 1;
      assert read + [] == read;
      return Ok(List(result));
    }

    method DecodeDict() returns (r: Result<Value, Error>)
      requires pos < |data| && data[pos] == DICT
      modifies this`pos
      ensures AsOutcome(r, pos) == DecodeAt(data, old(pos))
      decreases |data| - pos, 0
    {
      pos := pos + 1;
      var result: map<bytes, Value> := map[];
      ghost var start, read: seq<Field> := pos, [];
      PrependNothing(ReadFields(data, pos));
      while pos < |data| && data[pos] != END
        invariant start <= pos
        invariant FieldsSoFar(data, start, pos, read, result)
        decreases |data| - pos
      {
        ghost var before := pos;
        FieldsExit(data, start, pos, read, result);
        StringSound(data, pos);
        var key := DecodeString();
        if key.Err? {
          return Err(key.error);
        }
        var value := Decode();
        if value.Err? {
          return value;
        }
        FieldsTurn(data, start, before, read, result);
        result, read := result[key.value := value.value], read + [ReadField(data, before).value];
      }
      FieldsExit(data, start, pos, read, result);
      if pos >= |data| {
        return Err(MissingDictEnd);
      }
      pos := pos + 1;
      return Ok(Dict(result));
    }
  }

  /** What becomes of the text between `i` and `e`. */
  lemma IntegerOutcome(data: bytes, pos: nat, stop: nat, text: bytes)
    requires pos < |data| && data[pos] == INTEGER && stop == Scan(data, pos + 1, END)
    requires stop < |data| ==> text == data[pos + 1..stop]
    ensures DecodeAt(data, pos) ==
            if stop >= |data| then Failed(MissingIntegerEnd, stop)
            else if !Decodable(text) then Failed(NotUtf8, stop)
            else if IsIntegerText(text) then Done(Int(IntegerValue(text)), stop + 1)
            else Failed(InvalidInteger, stop + 1)
  {
    NumbersDecodable(text);
  }

  /** The dictionary loop when `read` has been read and `pos` is next. */
  ghost predicate FieldsSoFar(data: bytes, start: nat, pos: nat, read: seq<Field>, result: map<bytes, Value>) {
    && WellFormedFields(read) && result == MeaningFields(read)
    && ReadFields(data, start) == Prepend(read, ReadFields(data, pos))
  }

  /** How a dictionary ends, when its loop does or a field fails. */
  lemma FieldsExit(data: bytes, start: nat, pos: nat, read: seq<Field>, result: map<bytes, Value>)
    requires 0 < start <= |data| && data[start - 1] == DICT && FieldsSoFar(data, start, pos, read, result)
    ensures pos >= |data| ==> DecodeAt(data, start - 1) == Failed(MissingDictEnd, pos)
    ensures pos < |data| && data[pos] == END ==> DecodeAt(data, start - 1) == Done(Dict(result), pos + 1)
    ensures pos < |data| && data[pos] != END && ReadField(data, pos).Failed? ==>
              DecodeAt(data, start - 1) == Failed(ReadField(data, pos).error, ReadField(data, pos).pos)
  {
    assert read + [] == read;
  }

  lemma FieldsTurn(data: bytes, start: nat, pos: nat, read: seq<Field>, result: map<bytes, Value>)
    requires FieldsSoFar(data, start, pos, read, result)
    requires pos < |data| && data[pos] != END && ReadField(data, pos).Done?
    ensures var f := ReadField(data, pos);
      && WellFormedField(f.value)
      && FieldsSoFar(data, start, f.pos, read + [f.value], result[f.value.key := Meaning(f.value.value)])
  {
    ReadFieldSound(data, pos);
    var f := ReadField(data, pos);
    MeaningFieldsAppend(read, f.value);
    PrependTwice(read, [f.value], ReadFields(data, f.pos));
  }

  lemma PrependTwice<T>(xs: seq<T>, ys: seq<T>, rest: Outcome<seq<T>>)
    ensures Prepend(xs, Prepend(ys, rest)) == Prepend(xs + ys, rest)
  {
    if rest.Done? {
      assert xs + (ys + rest.value) == xs + ys + rest.value;
    }
  }

  lemma PrependNothing<T>(rest: Outcome<seq<T>>)
    ensures Prepend([], rest) == rest
  {
    if rest.Done? {
      assert [] + rest.value == rest.value;
    }
  }

  /** The module-level convenience function: bytes after the first value are not looked at. */
  method Decode(data: bytes) returns (r: Result<Value, Error>)
    ensures AsOutcome(r, DecodeAt(data, 0).pos) == DecodeAt(data, 0)
  {
    var decoder := new BencodeDecoder(data);
    r := decoder.Decode();
  }
}
