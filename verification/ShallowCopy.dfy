/** `apply_changes` copies the top dictionary only, so the configuration passed in shares its
    sections with the copy that is changed. Here, on values: what both of them hold after any
    list of changes, raised or not, and exactly when the one passed in still holds what it
    did. `PatchInPlace` proves that the dictionaries on the heap follow. */
module ShallowCopy {
  import opened Wrappers
  import opened ConfigTree
  import opened DottedKeys
  import opened Changes
  import opened ConfigDiff
  import opened NestedDicts

  /** The copy, the configuration passed in, and the keys under which both still have the same
      section; after a raise all three stay as they are. */
  datatype Views = Views(copy: Node, base: Node, shared: set<string>, raised: bool)

  function Start(n: Node): Views
    requires n.Section?
  {
    Views(n, n, set k | k in n.kids && n.kids[k].Section?, false)
  }

  /** A change of a top entry ends the sharing of its key; a change through a shared section
      changes both. */
  function Step(v: Views, key: string, change: Change): Views {
    var p := Split(key);
    if v.raised then v
    else
      match Apply(v.copy, key, change)
      case None => v.(raised := true)
      case Some(m) =>
        Views(m, if |p| > 1 && p[0] in v.shared then Applied(v.base, key, change) else v.base,
              if |p| == 1 then v.shared - {p[0]} else v.shared, false)
  }

  function Applied(n: Node, key: string, change: Change): Node {
    match Apply(n, key, change)
    case Some(m) => m
    case None => n
  }

  function Run(n: Node, cs: seq<(string, Change)>): Views
    requires n.Section?
  {
    if cs == [] then Start(n) else Step(Run(n, cs[..|cs| - 1]), cs[|cs| - 1].0, cs[|cs| - 1].1)
  }

  lemma RunNext(n: Node, cs: seq<(string, Change)>, i: nat)
    requires n.Section? && i < |cs|
    ensures Run(n, cs[..i + 1]) == Step(Run(n, cs[..i]), cs[i].0, cs[i].1)
  {
    assert cs[..i + 1][..i] == cs[..i];
  }

  /** The two trees are the same below every shared key. */
  ghost predicate Agree(v: Views) {
    && v.copy.Section? && v.base.Section?
    && forall k :: k in v.shared ==>
         k in v.copy.kids && k in v.base.kids && v.copy.kids[k] == v.base.kids[k] && v.copy.kids[k].Section?
  }

  /** A change leaves the top entries alone that it does not lead to. */
  lemma ApplyBeside(n: Node, key: string, change: Change, k: string)
    requires n.Section? && Apply(n, key, change).Some? && k != Split(key)[0]
    ensures var m := Apply(n, key, change).value;
      m.Section? && (k in m.kids <==> k in n.kids) && (k in n.kids ==> m.kids[k] == n.kids[k])
  {
  }

  /** Below a section that two trees have alike a change does the same to both. */
  lemma ApplyBelow(n: Node, b: Node, key: string, change: Change)
    requires n.Section? && b.Section? && |Split(key)| > 1
    requires var k := Split(key)[0]; k in n.kids && k in b.kids && n.kids[k] == b.kids[k] && n.kids[k].Section?
    ensures Apply(n, key, change).Some? <==> Apply(b, key, change).Some?
    ensures Apply(n, key, change).Some? ==>
              var k, m, c := Split(key)[0], Apply(n, key, change).value, Apply(b, key, change).value;
              m.Section? && c.Section? && k in m.kids && k in c.kids && m.kids[k] == c.kids[k] && m.kids[k].Section?
  {
    var p := Split(key);
    match change
    case Put(x) => StaysSection(n.kids[p[0]], p[1..], x);
    case Drop => StaysSection(n.kids[p[0]], p[1..], EMPTY);
  }

  lemma StaysSection(n: Node, p: Path, x: Node)
    requires n.Section? && p != []
    ensures Set(n, p, x).Some? ==> Set(n, p, x).value.Section?
    ensures Remove(n, p).Section?
  {
  }

  lemma StepAgrees(v: Views, key: string, change: Change)
    requires Agree(v)
    ensures Agree(Step(v, key, change))
  {
    var p, w := Split(key), Step(v, key, change);
    if !v.raised && Apply(v.copy, key, change).Some? {
      if |p| > 1 && p[0] in v.shared {
        ApplyBelow(v.copy, v.base, key, change);
      }
      forall k | k in w.shared && k != p[0]
        ensures k in w.copy.kids && k in w.base.kids && w.copy.kids[k] == w.base.kids[k] && w.copy.kids[k].Section?
      {
        ApplyBeside(v.copy, key, change, k);
        if Apply(v.base, key, change).Some? {
          ApplyBeside(v.base, key, change, k);
        }
      }
      assert w.copy.Section?;
    }
  }

  lemma {:induction false} RunAgrees(n: Node, cs: seq<(string, Change)>)
    requires n.Section?
    ensures Agree(Run(n, cs))
  {
    if cs != [] {
      RunAgrees(n, cs[..|cs| - 1]);
      StepAgrees(Run(n, cs[..|cs| - 1]), cs[|cs| - 1].0, cs[|cs| - 1].1);
    }
  }

  /** The copy is what `ApplyAll` says, and the run raises when `ApplyAll` does. */
  lemma {:induction false} RunIsApplyAll(n: Node, cs: seq<(string, Change)>)
    requires n.Section?
    ensures ApplyAll(n, cs) == if Run(n, cs).raised then None else Some(Run(n, cs).copy)
  {
    if cs != [] {
      RunIsApplyAll(n, cs[..|cs| - 1]);
    }
  }

  /** Below its first key a path reads from the copy while the key is shared; all else that the
      base reads is as before. */
  lemma StepReads(v: Views, key: string, change: Change, q: Path)
    requires Agree(v) && q != []
    ensures var w := Step(v, key, change);
      Lookup(w.base, q) == if q[0] in w.shared then Lookup(w.copy, q) else Lookup(v.base, q)
  {
    StepAgrees(v, key, change);
  }

  // ----- When a change is seen through the configuration passed in.

  /** The change is not one that leaves the tree as it is. */
  predicate Effective(n: Node, key: string, change: Change) {
    match change
    case Put(x) => Lookup(n, Split(key)) != Some(x)
    case Drop => Lookup(n, Split(key)).Some?
  }

  lemma {:induction false} SetSame(n: Node, p: Path, x: Node)
    requires p != [] && Lookup(n, p) == Some(x)
    ensures Set(n, p, x) == Some(n)
    decreases p
  {
    if |p| == 1 {
      assert p[1..] == [];
      assert n.kids[p[0] := n.kids[p[0]]] == n.kids;
    } else {
      SetSame(n.kids[p[0]], p[1..], x);
      assert n.kids[p[0] := n.kids[p[0]]] == n.kids;
    }
  }

  lemma EffectiveIff(n: Node, key: string, change: Change)
    requires Apply(n, key, change).Some?
    ensures Apply(n, key, change).value != n <==> Effective(n, key, change)
    ensures change.Put? ==> Lookup(Apply(n, key, change).value, Split(key)) == Some(change.x)
    ensures change.Drop? ==> Lookup(Apply(n, key, change).value, Split(key)) == None
  {
    var p := Split(key);
    match change
    case Put(x) =>
      LookupSet(n, p, x, p);
      assert p[|p|..] == [];
      if Lookup(n, p) == Some(x) {
        SetSame(n, p, x);
      }
    case Drop =>
      if Lookup(n, p).Some? {
        LookupRemove(n, p, p);
      } else {
        RemoveMissing(n, p);
      }
  }

  /** Change number `i` goes through a section of `n` whose place no earlier change took, it has
      an effect on `n`, and neither it nor a change before it is blocked. */
  ghost predicate Through(n: Node, cs: seq<(string, Change)>, i: nat)
    requires n.Section? && i < |cs|
  {
    var p := Split(cs[i].0);
    && |p| > 1 && IsSection(n, p[..1]) && (forall j :: 0 <= j < i ==> Split(cs[j].0) != p[..1])
    && Effective(n, cs[i].0, cs[i].1)
    && forall j :: 0 <= j <= i ==> !Blocked(n, cs, j)
  }

  lemma KidSection(n: Node, k: string)
    requires n.Section?
    ensures IsSection(n, [k]) <==> k in n.kids && n.kids[k].Section?
  {
    assert Lookup(n, [k]) == if k in n.kids then Some(n.kids[k]) else None by {
      assert [k][1..] == [];
    }
  }

  lemma {:induction false} SharedIs(n: Node, cs: seq<(string, Change)>, k: string)
    requires n.Section? && !Run(n, cs).raised
    ensures k in Run(n, cs).shared <==> IsSection(n, [k]) && forall j :: 0 <= j < |cs| ==> Split(cs[j].0) != [k]
  {
    KidSection(n, k);
    if cs != [] {
      var front := cs[..|cs| - 1];
      SharedIs(n, front, k);
      assert forall j :: 0 <= j < |front| ==> front[j] == cs[j];
      var p := Split(cs[|cs| - 1].0);
      assert p == [k] <==> |p| == 1 && p[0] == k;
    }
  }

  /** One step of the run moves the base exactly when it goes through a shared section with
      an effect. */
  lemma StepMovesIff(v: Views, key: string, change: Change)
    requires Agree(v)
    ensures var p := Split(key);
      Step(v, key, change).base != v.base <==>
        !v.raised && Apply(v.copy, key, change).Some? && |p| > 1 && p[0] in v.shared && Effective(v.base, key, change)
  {
    StepAgrees(v, key, change);
    var p := Split(key);
    if !v.raised && Apply(v.copy, key, change).Some? && |p| > 1 && p[0] in v.shared {
      assert Apply(v.base, key, change).Some?;
      EffectiveIff(v.base, key, change);
    }
  }

  /** A change is made exactly when neither it nor a change before it is blocked. */
  lemma RunMakesIff(n: Node, cs: seq<(string, Change)>, i: nat)
    requires n.Section? && i < |cs|
    ensures !Run(n, cs[..i]).raised && Apply(Run(n, cs[..i]).copy, cs[i].0, cs[i].1).Some? <==>
            forall j :: 0 <= j <= i ==> !Blocked(n, cs, j)
  {
    MadeIff(n, cs, i);
    RunNext(n, cs, i);
    RunIsApplyAll(n, cs[..i + 1]);
    RunIsApplyAll(n, cs[..i]);
  }

  /** While the base still holds `n`, it is moved by exactly the changes that go through. */
  lemma FirstMoveIff(n: Node, cs: seq<(string, Change)>, i: nat)
    requires n.Section? && i < |cs| && Run(n, cs[..i]).base == n
    ensures Run(n, cs[..i + 1]).base != n <==> Through(n, cs, i)
  {
    var v := Run(n, cs[..i]);
    var p := Split(cs[i].0);
    RunNext(n, cs, i);
    RunAgrees(n, cs[..i]);
    StepMovesIff(v, cs[i].0, cs[i].1);
    RunMakesIff(n, cs, i);
    if !v.raised && |p| > 1 {
      SharedIs(n, cs[..i], p[0]);
      assert p[..1] == [p[0]];
      assert forall j :: 0 <= j < i ==> cs[..i][j] == cs[j];
    }
  }

  /** The configuration passed in holds the same tree all along exactly when no change goes
      through one of its sections. */
  lemma {:induction false} BaseKeptThroughoutIff(n: Node, cs: seq<(string, Change)>)
    requires n.Section?
    ensures (forall i :: 0 <= i <= |cs| ==> Run(n, cs[..i]).base == n) <==>
            (forall i :: 0 <= i < |cs| ==> !Through(n, cs, i))
  {
    if forall i :: 0 <= i < |cs| ==> !Through(n, cs, i) {
      for i := 0 to |cs|
        invariant forall j :: 0 <= j <= i ==> Run(n, cs[..j]).base == n
      {
        FirstMoveIff(n, cs, i);
      }
    } else {
      var i :| 0 <= i < |cs| && Through(n, cs, i);
      if Run(n, cs[..i]).base == n {
        FirstMoveIff(n, cs, i);
      }
    }
  }

  // ----- At the end of the run.

  /** No changed key stands on the way to another, or twice. */
  ghost predicate NoneNested(cs: seq<(string, Change)>) {
    forall i, j :: 0 <= i < |cs| && 0 <= j < |cs| && i != j ==> !(Split(cs[i].0) <= Split(cs[j].0))
  }

  ghost predicate Beside(key: string, q: Path) {
    !(Split(key) <= q) && !(q <= Split(key))
  }

  lemma ApplyBesidePath(n: Node, key: string, change: Change, q: Path)
    requires Beside(key, q)
    ensures Lookup(Applied(n, key, change), q) == Lookup(n, q)
  {
    var p := Split(key);
    match change
    case Put(x) =>
      if Set(n, p, x).Some? {
        LookupSet(n, p, x, q);
      }
    case Drop =>
      if Lookup(n, p).Some? {
        LookupRemove(n, p, q);
      } else {
        RemoveMissing(n, p);
      }
  }

  /** Between two moments a path is not touched by changes beside it. */
  lemma {:induction false} KeptBeside(n: Node, cs: seq<(string, Change)>, i: nat, j: nat, q: Path)
    requires n.Section? && i <= j <= |cs|
    requires forall k :: i <= k < j ==> Beside(cs[k].0, q)
    ensures Lookup(Run(n, cs[..j]).base, q) == Lookup(Run(n, cs[..i]).base, q)
    decreases j
  {
    if i < j {
      KeptBeside(n, cs, i, j - 1, q);
      RunNext(n, cs, j - 1);
      ApplyBesidePath(Run(n, cs[..j - 1]).base, cs[j - 1].0, cs[j - 1].1, q);
    }
  }

  /** A change that goes through is made to the base as well. */
  lemma ThroughIsMade(n: Node, cs: seq<(string, Change)>, i: nat)
    requires n.Section? && i < |cs| && Through(n, cs, i)
    ensures var b := Run(n, cs[..i]).base;
      Apply(b, cs[i].0, cs[i].1).Some? && Run(n, cs[..i + 1]).base == Applied(b, cs[i].0, cs[i].1)
  {
    var v, p := Run(n, cs[..i]), Split(cs[i].0);
    RunNext(n, cs, i);
    RunAgrees(n, cs[..i]);
    RunMakesIff(n, cs, i);
    SharedIs(n, cs[..i], p[0]);
    assert p[..1] == [p[0]];
    ApplyBelow(v.copy, v.base, cs[i].0, cs[i].1);
  }

  /** And shows at its own path in the end. */
  lemma ThroughShows(n: Node, cs: seq<(string, Change)>, i: nat)
    requires n.Section? && NoneNested(cs) && i < |cs| && Through(n, cs, i)
    ensures Run(n, cs).base != n
  {
    var p := Split(cs[i].0);
    assert cs[..0] == [] && cs[..|cs|] == cs;
    KeptBeside(n, cs, 0, i, p);
    KeptBeside(n, cs, i + 1, |cs|, p);
    ThroughIsMade(n, cs, i);
    EffectiveIff(Run(n, cs[..i]).base, cs[i].0, cs[i].1);
  }

  /** When no changed key is nested in another, the configuration passed in holds at the end
      what it held before exactly when no change went through one of its sections. */
  lemma BaseKeptIff(n: Node, cs: seq<(string, Change)>)
    requires n.Section? && NoneNested(cs)
    ensures Run(n, cs).base == n <==> forall i :: 0 <= i < |cs| ==> !Through(n, cs, i)
  {
    if i :| 0 <= i < |cs| && Through(n, cs, i) {
      ThroughShows(n, cs, i);
    } else {
      BaseKeptThroughoutIff(n, cs);
      assert cs[..|cs|] == cs;
    }
  }

  /** `{a: {b: 1}, s: 0}` with `a.b` set to 2 and then `s.t` to 3: the second change raises, no
      result is returned, and the configuration passed in has been changed. */
  lemma ChangedThenRaised()
    ensures var n := Section(map["a" := Section(map["b" := Leaf(Number(1))]), "s" := Leaf(Number(0))]);
      var cs := [("a.b", Put(Leaf(Number(2)))), ("s.t", Put(Leaf(Number(3))))];
      && ApplyAll(n, cs) == None
      && Run(n, cs).base == Section(map["a" := Section(map["b" := Leaf(Number(2))]), "s" := Leaf(Number(0))]) != n
  {
    var n := Section(map["a" := Section(map["b" := Leaf(Number(1))]), "s" := Leaf(Number(0))]);
    var m := Section(map["a" := Section(map["b" := Leaf(Number(2))]), "s" := Leaf(Number(0))]);
    var cs := [("a.b", Put(Leaf(Number(2)))), ("s.t", Put(Leaf(Number(3))))];
    SplitTwo("a", "b");
    SplitTwo("s", "t");
    assert cs[..0] == [] && cs[..2] == cs;
    RunNext(n, cs, 0);
    RunNext(n, cs, 1);
    MadeThenStopped();
    RunIsApplyAll(n, cs);
    assert n.kids["a"].kids["b"] != m.kids["a"].kids["b"];
  }

  lemma MadeThenStopped()
    ensures var n := Section(map["a" := Section(map["b" := Leaf(Number(1))]), "s" := Leaf(Number(0))]);
      var m := Section(map["a" := Section(map["b" := Leaf(Number(2))]), "s" := Leaf(Number(0))]);
      Set(n, ["a", "b"], Leaf(Number(2))) == Some(m) && Set(m, ["s", "t"], Leaf(Number(3))) == None
  {
    var n := Section(map["a" := Section(map["b" := Leaf(Number(1))]), "s" := Leaf(Number(0))]);
    var m := Section(map["a" := Section(map["b" := Leaf(Number(2))]), "s" := Leaf(Number(0))]);
    assert ["a", "b"][1..] == ["b"] && ["s", "t"][1..] == ["t"];
    assert n.kids["a"].kids["b" := Leaf(Number(2))] == m.kids["a"].kids;
    assert n.kids["a" := m.kids["a"]] == m.kids;
  }

  lemma SplitTwo(s: string, t: string)
    requires DotFree(s) && DotFree(t)
    ensures Split(s + "." + t) == [s, t]
  {
    SplitFirst(s, t);
    SplitDotFree(t);
  }

  /** Nested keys may undo each other: from `{a: {b: {c: 1}}}`, removing `a.b` and then adding
      `a.b.c` with 1 goes through twice and ends where it began. */
  lemma NestedMayCancel()
    ensures var n := Section(map["a" := Section(map["b" := Section(map["c" := Leaf(Number(1))])])]);
      var cs := [("a.b", Drop), ("a.b.c", Put(Leaf(Number(1))))];
      Run(n, cs).base == n && Through(n, cs, 0)
  {
    var n := Section(map["a" := Section(map["b" := Section(map["c" := Leaf(Number(1))])])]);
    var m := Section(map["a" := EMPTY]);
    var cs := [("a.b", Drop), ("a.b.c", Put(Leaf(Number(1))))];
    AbcSplit();
    AwayAndBack();
    assert cs[..0] == [] && cs[..2] == cs;
    RunNext(n, cs, 0);
    RunNext(n, cs, 1);
    FirstMoveIff(n, cs, 0);
    assert "b" in n.kids["a"].kids && "b" !in m.kids["a"].kids;
  }

  lemma AbcSplit()
    ensures Split("a.b") == ["a", "b"] && Split("a.b.c") == ["a", "b", "c"]
  {
    SplitTwo("a", "b");
    SplitTwo("b", "c");
    SplitFirst("a", "b" + "." + "c");
    assert "a" + "." + ("b" + "." + "c") == "a.b.c";
  }

  lemma AwayAndBack()
    ensures var n := Section(map["a" := Section(map["b" := Section(map["c" := Leaf(Number(1))])])]);
      var m := Section(map["a" := EMPTY]);
      Remove(n, ["a", "b"]) == m && Set(m, ["a", "b", "c"], Leaf(Number(1))) == Some(n)
  {
    var n := Section(map["a" := Section(map["b" := Section(map["c" := Leaf(Number(1))])])]);
    var m := Section(map["a" := EMPTY]);
    assert ["a", "b"][1..] == ["b"];
    assert n.kids["a"].kids - {"b"} == map[];
    assert n.kids["a" := EMPTY] == m.kids;
    assert ["a", "b", "c"][1..] == ["b", "c"] && ["b", "c"][1..] == ["c"];
    assert m.kids["a" := n.kids["a"]] == n.kids;
  }
}
