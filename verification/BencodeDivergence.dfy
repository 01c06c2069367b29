/** When the unrestricted decoder of `BencodeCursor` never ends. What a call does is settled by
    its kind and its position, and positions that do not raise at once lie within one input
    length of zero; so a chain of nested calls and turns that is longer than there are such
    pairs has come back to one of them, and goes on for ever. */
module BencodeDivergence {
  import opened Bytes
  import opened BencodeGrammar
  import opened BencodeReader
  import opened BencodeCursor

  datatype Call = Value(pos: int) | Items(pos: int) | Fields(pos: int)

  /** The fuel does not last for this call. */
  predicate Stuck(data: bytes, c: Call, fuel: nat) {
    match c
    case Value(pos) => RunDecode(data, pos, fuel).OutOfFuel?
    case Items(pos) => RunItems(data, pos, fuel).OutOfFuel?
    case Fields(pos) => RunFields(data, pos, fuel).OutOfFuel?
  }

  /** It lasts with one more unit, and not before. */
  predicate Level(data: bytes, c: Call, fuel: nat) {
    Stuck(data, c, fuel) && !Stuck(data, c, fuel + 1)
  }

  // ----- More fuel never changes a result.

  lemma {:induction false} DecodeMonotone(data: bytes, pos: int, fuel: nat)
    requires !RunDecode(data, pos, fuel).OutOfFuel?
    ensures RunDecode(data, pos, fuel + 1) == RunDecode(data, pos, fuel)
    decreases fuel, 0
  {
    if pos < |data| && Index(data, pos).Some? {
      var b := Index(data, pos).value;
      if b == LIST {
        ItemsMonotone(data, pos + 1, fuel - 1);
      } else if b == DICT {
        FieldsMonotone(data, pos + 1, fuel - 1);
      }
    }
  }

  /** The rest of a turn of the list loop once the item has been decoded. */
  function AfterItem(data: bytes, t: Run<Syntax>, fuel: nat): Run<seq<Syntax>> {
    match t
    case Raised => Raised
    case OutOfFuel => OutOfFuel
    case Returned(v, q) => RunPrepend([v], RunItems(data, q, fuel))
  }

  lemma ItemsTurn(data: bytes, pos: int, fuel: nat)
    requires fuel > 0 && pos < |data| && Index(data, pos).Some? && Index(data, pos).value != END
    ensures RunItems(data, pos, fuel) == AfterItem(data, RunDecode(data, pos, fuel - 1), fuel - 1)
  {
  }

  lemma {:induction false} ItemsMonotone(data: bytes, pos: int, fuel: nat)
    requires !RunItems(data, pos, fuel).OutOfFuel?
    ensures RunItems(data, pos, fuel + 1) == RunItems(data, pos, fuel)
    decreases fuel, 0
  {
    if pos < |data| && Index(data, pos).Some? && Index(data, pos).value != END {
      DecodeMonotone(data, pos, fuel - 1);
      var t := RunDecode(data, pos, fuel - 1);
      if t.Returned? {
        ItemsMonotone(data, t.pos, fuel - 1);
      }
    }
  }

  /** The rest of a turn of the dictionary loop once the value has been decoded. */
  function AfterValue(data: bytes, s: Text, t: Run<Syntax>, fuel: nat): Run<seq<Field>> {
    match t
    case Raised => Raised
    case OutOfFuel => OutOfFuel
    case Returned(v, q) => RunPrepend([Field(s.len, s.body, v)], RunFields(data, q, fuel))
  }

  /** One turn of the dictionary loop. */
  lemma FieldsTurn(data: bytes, pos: int, fuel: nat)
    requires fuel > 0 && pos < |data| && Index(data, pos).Some? && Index(data, pos).value != END
    ensures var s := RunString(data, pos);
      && (s.Raised? ==> RunFields(data, pos, fuel) == Raised)
      && !s.OutOfFuel?
      && (s.Returned? ==> RunFields(data, pos, fuel) == AfterValue(data, s.value, RunDecode(data, s.pos, fuel - 1), fuel - 1))
  {
  }

  lemma {:induction false} FieldsMonotone(data: bytes, pos: int, fuel: nat)
    requires !RunFields(data, pos, fuel).OutOfFuel?
    ensures RunFields(data, pos, fuel + 1) == RunFields(data, pos, fuel)
    decreases fuel, 0
  {
    if pos < |data| && Index(data, pos).Some? && Index(data, pos).value != END {
      FieldsTurn(data, pos, fuel);
      FieldsTurn(data, pos, fuel + 1);
      var s := RunString(data, pos);
      if s.Returned? {
        AfterValueMonotone(data, s.value, s.pos, fuel - 1);
      }
    }
  }

  lemma {:induction false} AfterValueMonotone(data: bytes, s: Text, p: int, fuel: nat)
    requires !AfterValue(data, s, RunDecode(data, p, fuel), fuel).OutOfFuel?
    ensures AfterValue(data, s, RunDecode(data, p, fuel + 1), fuel + 1) ==
            AfterValue(data, s, RunDecode(data, p, fuel), fuel)
    decreases fuel, 1
  {
    DecodeMonotone(data, p, fuel);
    var t := RunDecode(data, p, fuel);
    if t.Returned? {
      FieldsMonotone(data, t.pos, fuel);
    }
  }

  lemma {:induction false} StuckBelow(data: bytes, c: Call, fuel: nat, more: nat)
    requires Stuck(data, c, more) && fuel <= more
    ensures Stuck(data, c, fuel)
    decreases more - fuel
  {
    if fuel < more {
      StuckBelow(data, c, fuel + 1, more);
      match c
      case Value(pos) => if !Stuck(data, c, fuel) { DecodeMonotone(data, pos, fuel); }
      case Items(pos) => if !Stuck(data, c, fuel) { ItemsMonotone(data, pos, fuel); }
      case Fields(pos) => if !Stuck(data, c, fuel) { FieldsMonotone(data, pos, fuel); }
    }
  }

  // ----- A call whose fuel just lasts makes one whose fuel, one unit less, just lasts.

  lemma NextLevel(data: bytes, c: Call, fuel: nat) returns (c': Call)
    requires Level(data, c, fuel) && fuel > 0
    ensures Level(data, c', fuel - 1)
  {
    match c
    case Value(pos) =>
      c' := if Index(data, pos).value == LIST then Items(pos + 1) else Fields(pos + 1);
    case Items(pos) =>
      c' := NextOfItems(data, pos, fuel);
    case Fields(pos) =>
      c' := NextOfFields(data, pos, fuel);
  }

  lemma NextOfItems(data: bytes, pos: int, fuel: nat) returns (c': Call)
    requires Level(data, Items(pos), fuel) && fuel > 0
    ensures Level(data, c', fuel - 1)
  {
    LevelInside(data, Items(pos), fuel);
    ItemsTurn(data, pos, fuel);
    ItemsTurn(data, pos, fuel + 1);
    c' := NextAfterItem(data, pos, fuel - 1);
  }

  lemma NextAfterItem(data: bytes, pos: int, fuel: nat) returns (c: Call)
    requires AfterItem(data, RunDecode(data, pos, fuel), fuel).OutOfFuel?
    requires !AfterItem(data, RunDecode(data, pos, fuel + 1), fuel + 1).OutOfFuel?
    ensures Level(data, c, fuel)
  {
    var t := RunDecode(data, pos, fuel);
    if t.OutOfFuel? {
      c := Value(pos);
    } else {
      DecodeMonotone(data, pos, fuel);
      c := Items(t.pos);
    }
  }

  lemma NextOfFields(data: bytes, pos: int, fuel: nat) returns (c': Call)
    requires Level(data, Fields(pos), fuel) && fuel > 0
    ensures Level(data, c', fuel - 1)
  {
    LevelInside(data, Fields(pos), fuel);
    FieldsTurn(data, pos, fuel);
    FieldsTurn(data, pos, fuel + 1);
    var s := RunString(data, pos);
    c' := NextAfterKey(data, s.value, s.pos, fuel - 1);
  }

  lemma NextAfterKey(data: bytes, s: Text, p: int, fuel: nat) returns (c: Call)
    requires AfterValue(data, s, RunDecode(data, p, fuel), fuel).OutOfFuel?
    requires !AfterValue(data, s, RunDecode(data, p, fuel + 1), fuel + 1).OutOfFuel?
    ensures Level(data, c, fuel)
  {
    var t := RunDecode(data, p, fuel);
    if t.OutOfFuel? {
      c := Value(p);
    } else {
      DecodeMonotone(data, p, fuel);
      c := Fields(t.pos);
    }
  }

  /** A call that needs more than one unit stands where there is a byte. */
  lemma LevelInside(data: bytes, c: Call, fuel: nat)
    requires Level(data, c, fuel) && fuel > 0
    ensures -|data| <= c.pos < |data|
  {
  }

  function Code(data: bytes, c: Call): int {
    c.pos + |data| + 2 * |data| * match c case Value(_) => 0 case Items(_) => 1 case Fields(_) => 2
  }

  lemma CodeInside(data: bytes, c: Call, d: Call)
    requires -|data| <= c.pos < |data| && -|data| <= d.pos < |data|
    ensures 0 <= Code(data, c) < 6 * |data|
    ensures Code(data, c) == Code(data, d) ==> c == d
  {
  }

  lemma {:induction false} BoundedSet(s: set<int>, n: nat)
    requires forall x :: x in s ==> 0 <= x < n
    ensures |s| <= n
  {
    if n > 0 {
      BoundedSet(s - {n - 1}, n - 1);
    } else {
      assert forall x :: x !in s;
    }
  }

  /** `s` is a set of codes of calls that all need some fuel, but no more than `fuel`. */
  ghost predicate Witnessed(data: bytes, s: set<int>, fuel: nat) {
    forall x :: x in s ==> exists c, f :: Code(data, c) == x && 0 < f <= fuel && Level(data, c, f)
  }

  lemma {:induction false} Descend(data: bytes, c: Call, fuel: nat) returns (s: set<int>)
    requires Level(data, c, fuel)
    ensures |s| == fuel && Witnessed(data, s, fuel)
    decreases fuel
  {
    if fuel == 0 {
      s := {};
    } else {
      var c' := NextLevel(data, c, fuel);
      var s' := Descend(data, c', fuel - 1);
      if Code(data, c) in s' {
        var d, f :| Code(data, d) == Code(data, c) && 0 < f <= fuel - 1 && Level(data, d, f);
        LevelInside(data, c, fuel);
        LevelInside(data, d, f);
        CodeInside(data, c, d);
        StuckBelow(data, c, f + 1, fuel);
      }
      s := s' + {Code(data, c)};
    }
  }

  lemma LevelBounded(data: bytes, c: Call, fuel: nat)
    requires Level(data, c, fuel)
    ensures fuel <= 6 * |data|
  {
    var s := Descend(data, c, fuel);
    forall x | x in s ensures 0 <= x < 6 * |data| {
      var d, f :| Code(data, d) == x && 0 < f <= fuel && Level(data, d, f);
      LevelInside(data, d, f);
      CodeInside(data, d, d);
    }
    BoundedSet(s, 6 * |data|);
  }

  lemma {:induction false} SomeLevel(data: bytes, c: Call, low: nat, fuel: nat) returns (f: nat)
    requires low <= fuel && Stuck(data, c, low) && !Stuck(data, c, fuel)
    ensures low <= f && Level(data, c, f)
    decreases fuel - low
  {
    if Stuck(data, c, low + 1) {
      f := SomeLevel(data, c, low + 1, fuel);
    } else {
      f := low;
    }
  }

  /** A chain of nested calls and turns longer than six times the input means a decoder that
      runs for ever; so no chain gets longer than that, plus one, or there is no end at all. */
  lemma EndsSoonOrNever(data: bytes, c: Call)
    ensures Stuck(data, c, 6 * |data| + 1) <==> forall fuel: nat :: Stuck(data, c, fuel)
  {
    if Stuck(data, c, 6 * |data| + 1) {
      forall fuel: nat ensures Stuck(data, c, fuel) {
        if !Stuck(data, c, fuel) {
          if fuel <= 6 * |data| + 1 {
            StuckBelow(data, c, fuel, 6 * |data| + 1);
          } else {
            var f := SomeLevel(data, c, 6 * |data| + 1, fuel);
            LevelBounded(data, c, f);
          }
        }
      }
    }
  }

  /** And a result, once there, is the result for any fuel beyond. */
  lemma {:induction false} ResultSettled(data: bytes, pos: int, fuel: nat)
    requires fuel >= 6 * |data| + 1
    ensures RunDecode(data, pos, fuel) == RunDecode(data, pos, 6 * |data| + 1)
    decreases fuel
  {
    if fuel > 6 * |data| + 1 {
      ResultSettled(data, pos, fuel - 1);
      EndsSoonOrNever(data, Value(pos));
      if RunDecode(data, pos, fuel - 1).OutOfFuel? {
        assert Stuck(data, Value(pos), 6 * |data| + 1) && Stuck(data, Value(pos), fuel);
      } else {
        DecodeMonotone(data, pos, fuel - 1);
      }
    }
  }
}
