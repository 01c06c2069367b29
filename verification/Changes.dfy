/** Lists of changes to a configuration tree, each at a dotted key: what the tree reads after
    all of them, and exactly when one of them raises, both told from the tree and the list. */
module Changes {
  import opened Wrappers
  import opened ConfigTree
  import opened DottedKeys

  /** "add" and "modify" write, "remove" deletes. */
  datatype Change = Put(x: Node) | Drop

  function Apply(n: Node, key: string, change: Change): Option<Node> {
    match change
    case Put(x) => Set(n, Split(key), x)
    case Drop => Some(Remove(n, Split(key)))
  }

  /** None where a write meets a leaf on its way and Python raises. */
  function ApplyAll(n: Node, changes: seq<(string, Change)>): Option<Node> {
    if changes == [] then Some(n)
    else
      match ApplyAll(n, changes[..|changes| - 1])
      case None => None
      case Some(m) => Apply(m, changes[|changes| - 1].0, changes[|changes| - 1].1)
  }

  lemma {:induction false} RaisedStaysRaised(n: Node, changes: seq<(string, Change)>, i: nat)
    requires i <= |changes| && ApplyAll(n, changes[..i]).None?
    ensures ApplyAll(n, changes).None?
  {
    if i < |changes| {
      assert changes[..|changes| - 1][..i] == changes[..i];
      RaisedStaysRaised(n, changes[..|changes| - 1], i);
    } else {
      assert changes[..i] == changes;
    }
  }

  // ----- What the changed tree reads.

  /** The last change whose path leads to `q` decides, and without one `n` does. */
  function LastRead(n: Node, cs: seq<(string, Change)>, q: Path): Option<Scalar> {
    if cs == [] then LeafAt(n, q)
    else
      var (key, change) := cs[|cs| - 1];
      var p := Split(key);
      if p <= q then Written(p, change, q) else LastRead(n, cs[..|cs| - 1], q)
  }

  /** What a change at `p` leaves at `q`. */
  function Written(p: Path, change: Change, q: Path): Option<Scalar>
    requires p <= q
  {
    match change
    case Put(x) => LeafAt(x, q[|p|..])
    case Drop => None
  }

  /** Which change that is: number `k`, or none when `k` is -1. */
  lemma {:induction false} LastReadIs(n: Node, cs: seq<(string, Change)>, q: Path) returns (k: int)
    ensures -1 <= k < |cs| && forall i :: k < i < |cs| ==> !(Split(cs[i].0) <= q)
    ensures k == -1 ==> LastRead(n, cs, q) == LeafAt(n, q)
    ensures k >= 0 ==> Split(cs[k].0) <= q && LastRead(n, cs, q) == Written(Split(cs[k].0), cs[k].1, q)
  {
    if cs == [] {
      k := -1;
    } else if Split(cs[|cs| - 1].0) <= q {
      k := |cs| - 1;
    } else {
      k := LastReadIs(n, cs[..|cs| - 1], q);
    }
  }

  lemma {:induction false} AppliedReads(n: Node, cs: seq<(string, Change)>, q: Path)
    requires ApplyAll(n, cs).Some?
    ensures LeafAt(ApplyAll(n, cs).value, q) == LastRead(n, cs, q)
  {
    if cs != [] {
      var front := cs[..|cs| - 1];
      var (key, change) := cs[|cs| - 1];
      AppliedReads(n, front, q);
      match change
      case Put(x) => LeafAtSet(ApplyAll(n, front).value, Split(key), x, q);
      case Drop => LeafAtRemove(ApplyAll(n, front).value, Split(key), q);
    }
  }

  // ----- When a list of changes raises.

  /** Change number `i` is a write, and a leaf stands on its way when its turn comes. */
  predicate Blocked(n: Node, cs: seq<(string, Change)>, i: nat)
    requires i < |cs|
  {
    var p := Split(cs[i].0);
    cs[i].1.Put? && exists j :: 0 <= j < |p| && LastRead(n, cs[..i], p[..j]).Some?
  }

  lemma LastRaisesIff(n: Node, cs: seq<(string, Change)>)
    requires cs != [] && ApplyAll(n, cs[..|cs| - 1]).Some?
    ensures ApplyAll(n, cs).None? <==> Blocked(n, cs, |cs| - 1)
  {
    var front := cs[..|cs| - 1];
    var (key, change) := cs[|cs| - 1];
    var m, p := ApplyAll(n, front).value, Split(key);
    if change.Put? {
      SetSucceeds(m, p, change.x);
      forall j | 0 <= j < |p| ensures LeafAt(m, p[..j]) == LastRead(n, front, p[..j]) {
        AppliedReads(n, front, p[..j]);
      }
    }
  }

  lemma BlockedFront(n: Node, cs: seq<(string, Change)>, k: nat, i: nat)
    requires i < k <= |cs|
    ensures Blocked(n, cs[..k], i) <==> Blocked(n, cs, i)
  {
    assert cs[..k][..i] == cs[..i];
  }

  /** The changes raise exactly when one of them is blocked. */
  lemma {:induction false} RaisesIff(n: Node, cs: seq<(string, Change)>)
    ensures ApplyAll(n, cs).None? <==> exists i :: 0 <= i < |cs| && Blocked(n, cs, i)
  {
    if cs != [] {
      var front := cs[..|cs| - 1];
      RaisesIff(n, front);
      forall i | 0 <= i < |front| ensures Blocked(n, front, i) <==> Blocked(n, cs, i) {
        BlockedFront(n, cs, |front|, i);
      }
      if ApplyAll(n, front).Some? {
        LastRaisesIff(n, cs);
      } else {
        var i :| 0 <= i < |front| && Blocked(n, front, i);
        assert Blocked(n, cs, i);
      }
    }
  }

  /** The changes up to number `i` are made exactly when none of them is blocked. */
  lemma MadeIff(n: Node, cs: seq<(string, Change)>, i: nat)
    requires i < |cs|
    ensures ApplyAll(n, cs[..i + 1]).Some? <==> forall j :: 0 <= j <= i ==> !Blocked(n, cs, j)
  {
    var made := cs[..i + 1];
    RaisesIff(n, made);
    forall j | 0 <= j < |made| ensures Blocked(n, made, j) <==> Blocked(n, cs, j) {
      BlockedFront(n, cs, i + 1, j);
    }
    if j :| 0 <= j < |made| && Blocked(n, made, j) {
      assert Blocked(n, cs, j);
    }
  }
}
