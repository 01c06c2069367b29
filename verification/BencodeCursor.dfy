/** The decoder with nothing held back: positions may go negative and a key of negative length
    moves the cursor backward, with Python's index and slice rules. Such a decoder need not
    terminate, so it runs on fuel: a nested call and the next turn of a loop each get one unit
    less than they are started with, so the fuel bounds the length of a chain of them, not how
    many there are. It justifies the one outcome of `BencodeReader` that the code does not
    have. */
module BencodeCursor {
  import opened Wrappers
  import opened Bytes
  import opened Decimal
  import opened BencodeGrammar
  import opened BencodeReader

  datatype Run<+T> = Returned(value: T, pos: int) | Raised | OutOfFuel

  /** `data[i]`, or no byte where Python raises `IndexError`. */
  function Index(data: bytes, i: int): Option<byte> {
    if 0 <= i < |data| then Some(data[i])
    else if -|data| <= i < 0 then Some(data[|data| + i])
    else None
  }

  function Clamp(n: nat, i: int): (r: nat)
    ensures r <= n
  {
    if i < 0 then (if n + i < 0 then 0 else n + i) else if i > n then n else i
  }

  /** `data[a:b]`. */
  function Slice(data: bytes, a: int, b: int): bytes {
    var lo, hi := Clamp(|data|, a), Clamp(|data|, b);
    if lo < hi then data[lo..hi] else []
  }

  function RunScan(data: bytes, pos: int, c: byte): Option<int>
    decreases |data| - pos
  {
    if pos >= |data| then Some(pos)
    else
      match Index(data, pos)
      case None => None
      case Some(b) => if b == c then Some(pos) else RunScan(data, pos + 1, c)
  }

  function RunInteger(data: bytes, pos: int): Run<Syntax> {
    match RunScan(data, pos + 1, END)
    case None => Raised
    case Some(stop) =>
      var text := Slice(data, pos + 1, stop);
      if stop >= |data| || !IsIntegerText(text) then Raised
      else Returned(IntSyntax(text), stop + 1)
  }

  function RunString(data: bytes, pos: int): Run<Text> {
    match RunScan(data, pos, COLON)
    case None => Raised
    case Some(colon) =>
      var text := Slice(data, pos, colon);
      if colon >= |data| || !IsNumeral(text) || colon + 1 + NumeralValue(text) > |data| then Raised
      else
        var stop := colon + 1 + NumeralValue(text);
        Returned(Text(text, Slice(data, colon + 1, stop)), stop)
  }

  function RunDecode(data: bytes, pos: int, fuel: nat): Run<Syntax>
    decreases fuel, 0
  {
    if fuel == 0 then OutOfFuel
    else if pos >= |data| then Raised
    else
      match Index(data, pos)
      case None => Raised
      case Some(b) =>
        if b == INTEGER then RunInteger(data, pos)
        else if b == LIST then
          match RunItems(data, pos + 1, fuel - 1)
          case Returned(ts, q) => Returned(ListSyntax(ts), q)
          case Raised => Raised
          case OutOfFuel => OutOfFuel
        else if b == DICT then
          match RunFields(data, pos + 1, fuel - 1)
          case Returned(fs, q) => Returned(DictSyntax(fs), q)
          case Raised => Raised
          case OutOfFuel => OutOfFuel
        else if StartsString(b) then
          match RunString(data, pos)
          case Returned(s, q) => Returned(StrSyntax(s.len, s.body), q)
          case Raised => Raised
          case OutOfFuel => OutOfFuel
        else Raised
  }

  function RunItems(data: bytes, pos: int, fuel: nat): Run<seq<Syntax>>
    decreases fuel, 0
  {
    if fuel == 0 then OutOfFuel
    else if pos >= |data| then Raised
    else
      match Index(data, pos)
      case None => Raised
      case Some(b) =>
        if b == END then Returned([], pos + 1)
        else
          match RunDecode(data, pos, fuel - 1)
          case Raised => Raised
          case OutOfFuel => OutOfFuel
          case Returned(t, q) => RunPrepend([t], RunItems(data, q, fuel - 1))
  }

  function RunFields(data: bytes, pos: int, fuel: nat): Run<seq<Field>>
    decreases fuel, 1
  {
    if fuel == 0 then OutOfFuel
    else if pos >= |data| then Raised
    else
      match Index(data, pos)
      case None => Raised
      case Some(b) =>
        if b == END then Returned([], pos + 1)
        else
          match RunField(data, pos, fuel)
          case Raised => Raised
          case OutOfFuel => OutOfFuel
          case Returned(f, q) => RunPrepend([f], RunFields(data, q, fuel - 1))
  }

  function RunField(data: bytes, pos: int, fuel: nat): Run<Field>
    requires fuel > 0
    decreases fuel, 0
  {
    match RunString(data, pos)
    case Raised => Raised
    case OutOfFuel => OutOfFuel
    case Returned(s, p) =>
      match RunDecode(data, p, fuel - 1)
      case Raised => Raised
      case OutOfFuel => OutOfFuel
      case Returned(t, q) => Returned(Field(s.len, s.body, t), q)
  }

  function RunPrepend<T>(xs: seq<T>, rest: Run<seq<T>>): Run<seq<T>> {
    match rest
    case Returned(ys, q) => Returned(xs + ys, q)
    case Raised => Raised
    case OutOfFuel => OutOfFuel
  }

  // ----- Without a negative key length the two decoders are the same.

  /** `run` is the outcome `o`, cursor included, an error being an exception; nothing is said
      where `o` is the departure. */
  predicate Same<T(==)>(o: Outcome<T>, run: Run<T>) {
    match o
    case Done(v, q) => run == Returned(v, q)
    case Failed(e, _) => e == NegativeKeyLength || run == Raised
  }

  lemma {:induction false} ScanAgrees(data: bytes, pos: nat, c: byte)
    ensures RunScan(data, pos, c) == Some(Scan(data, pos, c))
    decreases |data| - pos
  {
    if pos < |data| && data[pos] != c {
      ScanAgrees(data, pos + 1, c);
    }
  }

  lemma SliceInside(data: bytes, a: nat, b: nat)
    requires a <= b <= |data|
    ensures Slice(data, a, b) == data[a..b]
  {
  }

  lemma IntegerAgrees(data: bytes, pos: nat)
    requires pos < |data|
    ensures Same(ReadInteger(data, pos), RunInteger(data, pos))
  {
    ScanAgrees(data, pos + 1, END);
    var stop := Scan(data, pos + 1, END);
    if stop < |data| {
      SliceInside(data, pos + 1, stop);
    }
  }

  lemma StringAgrees(data: bytes, pos: nat)
    requires pos <= |data|
    ensures Same(ReadString(data, pos), RunString(data, pos))
  {
    ScanAgrees(data, pos, COLON);
    var colon := Scan(data, pos, COLON);
    if colon < |data| {
      SliceInside(data, pos, colon);
    }
    var r := ReadString(data, pos);
    if r.Done? {
      SliceInside(data, colon + 1, r.pos);
    }
  }

  /** Unless a negative key length is met, the unrestricted decoder terminates, no chain of
      nested calls and turns in it being longer than twice the bytes left plus one, and it
      reads what `Read` reads. */
  lemma {:induction false} DecodeAgrees(data: bytes, pos: nat, fuel: nat)
    requires pos <= |data| && fuel > 2 * (|data| - pos)
    ensures Same(Read(data, pos), RunDecode(data, pos, fuel))
    decreases |data| - pos, 0
  {
    if pos < |data| {
      if data[pos] == INTEGER {
        IntegerAgrees(data, pos);
      } else if data[pos] == LIST {
        ItemsAgree(data, pos + 1, fuel - 1);
      } else if data[pos] == DICT {
        FieldsAgree(data, pos + 1, fuel - 1);
      } else if StartsString(data[pos]) {
        StringAgrees(data, pos);
      }
    }
  }

  lemma {:induction false} ItemsAgree(data: bytes, pos: nat, fuel: nat)
    requires pos <= |data| && fuel > 2 * (|data| - pos) + 1
    ensures Same(ReadItems(data, pos), RunItems(data, pos, fuel))
    decreases |data| - pos, 1
  {
    if pos < |data| && data[pos] != END {
      DecodeAgrees(data, pos, fuel - 1);
      var t := Read(data, pos);
      if t.Done? {
        ItemsAgree(data, t.pos, fuel - 1);
      }
    }
  }

  lemma {:induction false} FieldsAgree(data: bytes, pos: nat, fuel: nat)
    requires pos <= |data| && fuel > 2 * (|data| - pos) + 1
    ensures Same(ReadFields(data, pos), RunFields(data, pos, fuel))
    decreases |data| - pos, 1
  {
    if pos < |data| && data[pos] != END {
      FieldAgrees(data, pos, fuel);
      var f := ReadField(data, pos);
      if f.Done? {
        FieldsAgree(data, f.pos, fuel - 1);
      }
    }
  }

  lemma {:induction false} FieldAgrees(data: bytes, pos: nat, fuel: nat)
    requires pos < |data| && fuel > 2 * (|data| - pos) + 1
    ensures Same(ReadField(data, pos), RunField(data, pos, fuel))
    decreases |data| - pos, 0
  {
    StringAgrees(data, pos);
    var s := ReadString(data, pos);
    if s.Done? {
      DecodeAgrees(data, s.pos, fuel - 1);
    }
  }

  // ----- With one, it may never return, by recursion or by looping; or it may return.

  /** `d-4:` */
  const RECURSES: bytes := [DICT, MINUS, 52, COLON]

  lemma {:induction false} RecursesForever(fuel: nat)
    ensures RunDecode(RECURSES, 0, fuel) == OutOfFuel
    ensures Read(RECURSES, 0) == Failed(NegativeKeyLength, 4)
  {
    KeyMovesBack(RECURSES, 1, 3, 4);
    assert ReadFields(RECURSES, 1) == Failed(NegativeKeyLength, 4);
    if fuel > 1 {
      RecursesForever(fuel - 2);
      assert RunField(RECURSES, 1, fuel - 1) == OutOfFuel;
      assert RunFields(RECURSES, 1, fuel - 1) == OutOfFuel;
    }
  }

  /** `d0:0:-5:`, where the second key moves back to the first value, again and again. */
  const LOOPS: bytes := [DICT, ZERO, COLON, ZERO, COLON, MINUS, 53, COLON]

  lemma {:induction false} LoopsForever(fuel: nat)
    ensures RunFields(LOOPS, 5, fuel) == OutOfFuel
  {
    KeyMovesBack(LOOPS, 5, 7, 5);
    EmptyStringAt(LOOPS, 3);
    if fuel > 0 {
      LoopsForever(fuel - 1);
      assert fuel > 1 ==> RunDecode(LOOPS, 3, fuel - 1) == Returned(StrSyntax([ZERO], []), 5);
      assert RunField(LOOPS, 5, fuel) ==
             if fuel == 1 then OutOfFuel else Returned(Field([MINUS, 53], [], StrSyntax([ZERO], [])), 5);
    }
  }

  lemma LoopIsReached(fuel: nat)
    ensures RunDecode(LOOPS, 0, fuel) == OutOfFuel
  {
    EmptyStringAt(LOOPS, 1);
    EmptyStringAt(LOOPS, 3);
    if fuel > 1 {
      LoopsForever(fuel - 2);
      assert fuel > 2 ==> RunDecode(LOOPS, 3, fuel - 2) == Returned(StrSyntax([ZERO], []), 5);
      assert RunField(LOOPS, 1, fuel - 1) ==
             if fuel == 2 then OutOfFuel else Returned(Field([ZERO], [], StrSyntax([ZERO], [])), 5);
      assert RunFields(LOOPS, 1, fuel - 1) == OutOfFuel;
    }
  }

  /** `d-2:abe`: the key is empty, the cursor lands on the digit, and decoding succeeds. */
  const RETURNS: bytes := [DICT, MINUS, 50, COLON, 97, 98, END]

  lemma NegativeLengthMayReturn(fuel: nat)
    requires fuel >= 4
    ensures RunDecode(RETURNS, 0, fuel) ==
            Returned(DictSyntax([Field([MINUS, 50], [], StrSyntax([50], [97, 98]))]), 7)
    ensures Read(RETURNS, 0) == Failed(NegativeKeyLength, 4)
  {
    KeyMovesBack(RETURNS, 1, 3, 2);
    assert ReadFields(RETURNS, 1) == Failed(NegativeKeyLength, 4);
    StringComplete(RETURNS, 2, Text([50], [97, 98]), 6);
    StringAgrees(RETURNS, 2);
    var f := Field([MINUS, 50], [], StrSyntax([50], [97, 98]));
    assert RunDecode(RETURNS, 2, fuel - 2) == Returned(f.value, 6);
    assert RunField(RETURNS, 1, fuel - 1) == Returned(f, 6);
    assert RunFields(RETURNS, 6, fuel - 2) == Returned([], 7);
    assert [f] + [] == [f];
  }

  /** A key `-d:` with one digit at `pos`. */
  lemma KeyMovesBack(data: bytes, pos: nat, colon: nat, d: nat)
    requires colon == pos + 2 < |data| && 1 <= d <= 9
    requires data[pos] == MINUS && data[pos + 1] == 48 + d && data[colon] == COLON
    ensures ReadString(data, pos) == Failed(NegativeKeyLength, colon + 1)
    ensures colon + 1 - d >= 0 ==> RunString(data, pos) == Returned(Text([MINUS, 48 + d], []), colon + 1 - d)
  {
    ScanIs(data, pos, COLON, colon);
    ScanAgrees(data, pos, COLON);
    assert data[pos..colon] == [MINUS, 48 + d];
    assert data[pos..colon][1..] == [48 + d];
  }

  lemma EmptyStringAt(data: bytes, pos: nat)
    requires pos + 1 < |data| && data[pos] == ZERO && data[pos + 1] == COLON
    ensures RunString(data, pos) == Returned(Text([ZERO], []), pos + 2)
  {
    ScanIs(data, pos, COLON, pos + 1);
    ScanAgrees(data, pos, COLON);
    assert data[pos..pos + 1] == [ZERO];
  }

  /** Python's rules: negative positions count from the end, an index outside is an error, and a
      slice is cut to fit and keeps what lies between its ends. */
  lemma SliceIs(data: bytes, a: int, b: int)
    ensures var r, from, to := Slice(data, a, b), if a < 0 then |data| + a else a, if b < 0 then |data| + b else b;
      var lo, hi := if from < 0 then 0 else from, if to > |data| then |data| else to;
      |r| == (if lo < hi then hi - lo else 0) && forall k :: 0 <= k < |r| ==> r[k] == data[lo + k]
    ensures Index(data, a) == if -|data| <= a < |data| then Some(if a < 0 then data[|data| + a] else data[a]) else None
  {
  }
}
