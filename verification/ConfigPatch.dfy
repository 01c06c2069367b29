/** Diff, then patch: when applying a difference really gives the other configuration. */
module ConfigPatch {
  import opened Wrappers
  import opened ConfigTree
  import opened DottedKeys
  import opened Changes
  import opened ConfigDiff

  // ----- A patch, in any order.

  function ChangedKeys(d: Diff): set<string> {
    d.added.Keys + d.removed.Keys + d.modified.Keys
  }

  function ChangeOf(d: Diff, s: string): Change {
    if s in d.added then Put(d.added[s])
    else if s in d.modified then Put(d.modified[s].1)
    else Drop
  }

  /** The changes of `d` in the order given. */
  function ChangeList(d: Diff, order: seq<string>): (cs: seq<(string, Change)>)
    ensures |cs| == |order| && forall i :: 0 <= i < |order| ==> cs[i] == (order[i], ChangeOf(d, order[i]))
  {
    seq(|order|, i requires 0 <= i < |order| => (order[i], ChangeOf(d, order[i])))
  }

  /** Each of the keys once. */
  ghost predicate IsOrder(order: seq<string>, keys: set<string>) {
    && (forall s :: s in order <==> s in keys)
    && (forall i, j :: 0 <= i < j < |order| ==> order[i] != order[j])
  }

  /** No leaf of `c1` stands where `c2` has a section with leaves. */
  ghost predicate NoClash(c1: Node, c2: Node) {
    forall p: Path, q: Path :: LeafAt(c1, p).Some? && LeafAt(c2, q).Some? && p <= q ==> p == q
  }

  /** The key `s` of a leaf of `c2` lies below the key `r` of a leaf of `c1`. */
  predicate Clash(c1: Node, c2: Node, s: string, r: string) {
    Split(r) < Split(s) && LeafAt(c1, Split(r)).Some? && LeafAt(c2, Split(s)).Some?
  }

  // ----- What each change writes, and what the patched tree reads.

  /** A changed key leads to a leaf on at least one side, and is given what `c2` has there. */
  lemma ChangedKey(c1: Node, c2: Node, s: string)
    requires Plain(c1) && Plain(c2) && s in ChangedKeys(DiffOf(c1, c2))
    ensures LeafAt(c1, Split(s)).Some? || LeafAt(c2, Split(s)).Some?
    ensures match ChangeOf(DiffOf(c1, c2), s)
            case Put(x) => Lookup(c2, Split(s)) == Some(x)
            case Drop => Lookup(c2, Split(s)) == None
  {
    KeyIffLeaf(c1, s);
    KeyIffLeaf(c2, s);
    GetIsNone(c1, s);
    GetIsNone(c2, s);
  }

  /** A leaf that the two sides do not share has its key among the changed ones. */
  lemma ChangedLeafKey(c1: Node, c2: Node, q: Path)
    requires Plain(c1) && Plain(c2) && LeafAt(c1, q) != LeafAt(c2, q)
    ensures q != [] && Split(Join(q)) == q && Join(q) in ChangedKeys(DiffOf(c1, c2))
  {
    LeafPathIsKey(c1, c2, q);
    GetIsNone(c1, Join(q));
    GetIsNone(c2, Join(q));
  }

  lemma WritesTarget(c1: Node, c2: Node, s: string, q: Path)
    requires Plain(c1) && Plain(c2) && s in ChangedKeys(DiffOf(c1, c2)) && Split(s) <= q
    ensures Written(Split(s), ChangeOf(DiffOf(c1, c2), s), q) == LeafAt(c2, q)
  {
    var p := Split(s);
    ChangedKey(c1, c2, s);
    LookupAppend(c2, p, q[|p|..]);
    assert q == p + q[|p|..];
  }

  /** In whatever order the changes come, every path ends up reading as in `c2`. */
  lemma PatchReads(c1: Node, c2: Node, order: seq<string>, q: Path)
    requires Plain(c1) && Plain(c2) && IsOrder(order, ChangedKeys(DiffOf(c1, c2)))
    ensures LastRead(c1, ChangeList(DiffOf(c1, c2), order), q) == LeafAt(c2, q)
  {
    var k := LastReadIs(c1, ChangeList(DiffOf(c1, c2), order), q);
    if k >= 0 {
      WritesTarget(c1, c2, order[k], q);
    } else if LeafAt(c1, q) != LeafAt(c2, q) {
      ChangedLeafKey(c1, c2, q);
    }
  }

  // ----- Which order raises.

  /** A write is blocked exactly when a clashing key comes later. */
  lemma BlockedIff(c1: Node, c2: Node, order: seq<string>, i: nat)
    requires Plain(c1) && Plain(c2) && IsOrder(order, ChangedKeys(DiffOf(c1, c2))) && i < |order|
    ensures Blocked(c1, ChangeList(DiffOf(c1, c2), order), i) <==>
            exists m :: i < m < |order| && Clash(c1, c2, order[i], order[m])
  {
    var cs := ChangeList(DiffOf(c1, c2), order);
    var p := Split(order[i]);
    if Blocked(c1, cs, i) {
      var j :| 0 <= j < |p| && LastRead(c1, cs[..i], p[..j]).Some?;
      var m := BlockedByLater(c1, c2, order, i, j);
    }
    if m :| i < m < |order| && Clash(c1, c2, order[i], order[m]) {
      LaterBlocks(c1, c2, order, i, m);
    }
  }

  /** What half a patch reads where `c2` has no leaf is a leaf of `c1` not changed so far. */
  lemma StillFirst(c1: Node, c2: Node, order: seq<string>, i: nat, r: Path)
    requires Plain(c1) && Plain(c2) && IsOrder(order, ChangedKeys(DiffOf(c1, c2))) && i <= |order|
    requires LeafAt(c2, r).None? && LastRead(c1, ChangeList(DiffOf(c1, c2), order)[..i], r).Some?
    ensures LeafAt(c1, r).Some? && forall k :: 0 <= k < i ==> !(Split(order[k]) <= r)
  {
    var made := ChangeList(DiffOf(c1, c2), order)[..i];
    var k := LastReadIs(c1, made, r);
    if k >= 0 {
      WritesTarget(c1, c2, order[k], r);
    }
    assert forall l :: 0 <= l < i ==> made[l].0 == order[l];
  }

  lemma IndexOf(order: seq<string>, keys: set<string>, s: string) returns (m: nat)
    requires IsOrder(order, keys) && s in keys
    ensures m < |order| && order[m] == s
  {
    assert s in order;
    m :| m < |order| && order[m] == s;
  }

  lemma BlockedByLater(c1: Node, c2: Node, order: seq<string>, i: nat, j: nat) returns (m: nat)
    requires Plain(c1) && Plain(c2) && IsOrder(order, ChangedKeys(DiffOf(c1, c2))) && i < |order|
    requires j < |Split(order[i])| && ChangeOf(DiffOf(c1, c2), order[i]).Put?
    requires LastRead(c1, ChangeList(DiffOf(c1, c2), order)[..i], Split(order[i])[..j]).Some?
    ensures i < m < |order| && Clash(c1, c2, order[i], order[m])
  {
    var p, r := Split(order[i]), Split(order[i])[..j];
    ChangedKey(c1, c2, order[i]);
    if LeafAt(c2, r).Some? {
      NothingBelowLeaf(c2, r, p);
    }
    StillFirst(c1, c2, order, i, r);
    NothingBelowLeaf(c1, r, p);
    ChangedLeafKey(c1, c2, r);
    m := IndexOf(order, ChangedKeys(DiffOf(c1, c2)), Join(r));
  }

  lemma LaterBlocks(c1: Node, c2: Node, order: seq<string>, i: nat, m: nat)
    requires Plain(c1) && Plain(c2) && IsOrder(order, ChangedKeys(DiffOf(c1, c2)))
    requires i < m < |order| && Clash(c1, c2, order[i], order[m])
    ensures Blocked(c1, ChangeList(DiffOf(c1, c2), order), i)
  {
    var cs := ChangeList(DiffOf(c1, c2), order);
    var p, r := Split(order[i]), Split(order[m]);
    assert p[..|r|] == r;
    ChangedKey(c1, c2, order[i]);
    var k := LastReadIs(c1, cs[..i], r);
    if k >= 0 {
      EarlierNotAbove(c1, c2, order, i, m, k);
    }
  }

  lemma EarlierNotAbove(c1: Node, c2: Node, order: seq<string>, i: nat, m: nat, k: nat)
    requires Plain(c1) && Plain(c2) && IsOrder(order, ChangedKeys(DiffOf(c1, c2)))
    requires k < i < m < |order| && Clash(c1, c2, order[i], order[m])
    ensures !(Split(order[k]) <= Split(order[m]))
  {
    var o, r, p := Split(order[k]), Split(order[m]), Split(order[i]);
    if o <= r {
      ChangedKey(c1, c2, order[k]);
      if LeafAt(c2, o).Some? {
        NothingBelowLeaf(c2, o, p);
      } else if o != r {
        NothingBelowLeaf(c1, o, r);
      } else {
        JoinSplit(order[k]);
        JoinSplit(order[m]);
      }
    }
  }

  /** One call has one order: the patch succeeds, and then with exactly the leaves of `c2`, if
      and only if no key of a leaf of `c2` comes before the key of a leaf of `c1` above it. */
  lemma PatchOrderIff(c1: Node, c2: Node, order: seq<string>)
    requires Plain(c1) && Plain(c2) && IsOrder(order, ChangedKeys(DiffOf(c1, c2)))
    ensures var r := ApplyAll(c1, ChangeList(DiffOf(c1, c2), order));
      && (r.Some? <==> forall i, m :: 0 <= i < m < |order| ==> !Clash(c1, c2, order[i], order[m]))
      && (r.Some? ==> SameLeaves(r.value, c2))
  {
    var cs := ChangeList(DiffOf(c1, c2), order);
    RaisesIff(c1, cs);
    forall i | 0 <= i < |order|
      ensures Blocked(c1, cs, i) <==> exists m :: i < m < |order| && Clash(c1, c2, order[i], order[m])
    {
      BlockedIff(c1, c2, order, i);
    }
    if ApplyAll(c1, cs).Some? {
      forall q: Path ensures LeafAt(ApplyAll(c1, cs).value, q) == LeafAt(c2, q) {
        AppliedReads(c1, cs, q);
        PatchReads(c1, c2, order, q);
      }
    }
  }

  // ----- Every order, and some order.

  /** Applying the difference of `c1` and `c2` to `c1`, whatever the order of the changes,
      succeeds and gives exactly the leaves of `c2`. */
  lemma DiffThenPatch(c1: Node, c2: Node, order: seq<string>)
    requires Plain(c1) && Plain(c2) && NoClash(c1, c2)
    requires IsOrder(order, ChangedKeys(DiffOf(c1, c2)))
    ensures var r := ApplyAll(c1, ChangeList(DiffOf(c1, c2), order));
      r.Some? && SameLeaves(r.value, c2)
  {
    PatchOrderIff(c1, c2, order);
  }

  lemma {:induction false} SomeOrder(keys: set<string>) returns (order: seq<string>)
    ensures IsOrder(order, keys)
  {
    if keys == {} {
      order := [];
    } else {
      var s :| s in keys;
      var rest := SomeOrder(keys - {s});
      order := [s] + rest;
    }
  }

  /** Where a leaf of `c1` meets leaves of `c2` below it, some order raises. */
  lemma ClashRaises(c1: Node, c2: Node) returns (order: seq<string>)
    requires Plain(c1) && Plain(c2) && !NoClash(c1, c2)
    ensures IsOrder(order, ChangedKeys(DiffOf(c1, c2)))
    ensures ApplyAll(c1, ChangeList(DiffOf(c1, c2), order)) == None
  {
    var keys := ChangedKeys(DiffOf(c1, c2));
    var p: Path, q: Path :| LeafAt(c1, p).Some? && LeafAt(c2, q).Some? && p <= q && p != q;
    NothingBelowLeaf(c1, p, q);
    if LeafAt(c2, p).Some? {
      NothingBelowLeaf(c2, p, q);
    }
    ChangedLeafKey(c1, c2, p);
    ChangedLeafKey(c1, c2, q);
    var rest := SomeOrder(keys - {Join(q)});
    order := [Join(q)] + rest;
    assert IsOrder(order, keys);
    var m := IndexOf(order, keys, Join(p));
    assert Clash(c1, c2, order[0], order[m]);
    PatchOrderIff(c1, c2, order);
  }

  /** So patching is right in every order exactly when no leaf of `c1` stands above leaves of
      `c2`. */
  lemma PatchAnyOrderIff(c1: Node, c2: Node)
    requires Plain(c1) && Plain(c2)
    ensures NoClash(c1, c2) <==>
      forall order :: IsOrder(order, ChangedKeys(DiffOf(c1, c2))) ==>
        var r := ApplyAll(c1, ChangeList(DiffOf(c1, c2), order)); r.Some? && SameLeaves(r.value, c2)
  {
    if NoClash(c1, c2) {
      forall order | IsOrder(order, ChangedKeys(DiffOf(c1, c2)))
        ensures var r := ApplyAll(c1, ChangeList(DiffOf(c1, c2), order)); r.Some? && SameLeaves(r.value, c2)
      {
        DiffThenPatch(c1, c2, order);
      }
    } else {
      var order := ClashRaises(c1, c2);
    }
  }

  lemma FirstThenSecond(a: seq<string>, ks: set<string>, b: seq<string>, ls: set<string>)
    requires IsOrder(a, ks) && IsOrder(b, ls) && ks !! ls
    ensures IsOrder(a + b, ks + ls)
    ensures forall i, m :: 0 <= i < m < |a + b| && (a + b)[m] in ks ==> (a + b)[i] in ks
  {
    forall i | 0 <= i < |a + b| ensures (a + b)[i] in ks <==> i < |a| {
      assert (a + b)[i] == if i < |a| then a[i] else b[i - |a|];
    }
    forall i, j | 0 <= i < j < |a + b| ensures (a + b)[i] != (a + b)[j] {
      assert i >= |a| ==> b[i - |a|] != b[j - |a|];
    }
  }

  /** Whatever clashes, patching is right in some order: the leaves of `c1` first. */
  lemma GoodOrder(c1: Node, c2: Node) returns (order: seq<string>)
    requires Plain(c1) && Plain(c2)
    ensures IsOrder(order, ChangedKeys(DiffOf(c1, c2)))
    ensures var r := ApplyAll(c1, ChangeList(DiffOf(c1, c2), order)); r.Some? && SameLeaves(r.value, c2)
  {
    var keys := ChangedKeys(DiffOf(c1, c2));
    var firstKeys := set s | s in keys && LeafAt(c1, Split(s)).Some?;
    var first := SomeOrder(firstKeys);
    var second := SomeOrder(keys - firstKeys);
    order := first + second;
    FirstThenSecond(first, firstKeys, second, keys - firstKeys);
    assert firstKeys + (keys - firstKeys) == keys;
    forall i, m | 0 <= i < m < |order| ensures !Clash(c1, c2, order[i], order[m]) {
      if LeafAt(c1, Split(order[m])).Some? && Split(order[m]) < Split(order[i]) {
        NothingBelowLeaf(c1, Split(order[m]), Split(order[i]));
      }
    }
    PatchOrderIff(c1, c2, order);
  }

  /** From `{a: 1}` to `{a: {b: 2}}`: adding `a.b` first raises, because `a` is still a number. */
  lemma LeafBecomesSection() returns (order: seq<string>)
    ensures var c1, c2 := Section(map["a" := Leaf(Number(1))]), Section(map["a" := Section(map["b" := Leaf(Number(2))])]);
      && Plain(c1) && Plain(c2) && !NoClash(c1, c2)
      && IsOrder(order, ChangedKeys(DiffOf(c1, c2)))
      && ApplyAll(c1, ChangeList(DiffOf(c1, c2), order)) == None
  {
    var c1, c2 := Section(map["a" := Leaf(Number(1))]), Section(map["a" := Section(map["b" := Leaf(Number(2))])]);
    assert LeafAt(c1, ["a"]).Some? && LeafAt(c2, ["a", "b"]).Some? by {
      assert ["a", "b"][1..] == ["b"] && ["b"][1..] == [] && ["a"][1..] == [];
    }
    assert ["a"] <= ["a", "b"];
    order := ClashRaises(c1, c2);
  }
}
