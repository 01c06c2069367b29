/** `_set_nested_value`, `_set_nested` and `_remove_nested_value` as the repository runs them:
    a reference `current` walks down dictionaries that live on the heap, and the last one is
    changed in place. They are proved to do to the whole tree what `ConfigTree.Set` and
    `ConfigTree.Remove` do to its value. */
module NestedDicts {
  import opened Wrappers
  import opened ConfigTree

  datatype Item = Value(v: Scalar) | Sub(d: Dict)

  class Dict {
    var items: map<string, Item>

    constructor (items: map<string, Item>)
      ensures this.items == items
    {
      this.items := items;
    }
  }

  /** Which dictionary stands at which path of a tree. */
  type Places = map<Path, Dict>

  type Rows = map<Path, map<string, Item>>

  ghost predicate IsSection(n: Node, p: Path) {
    Lookup(n, p).Some? && Lookup(n, p).value.Section?
  }

  /** The entry `x` as a dictionary at `p` stores it. */
  ghost predicate Stores(it: Item, at: Places, p: Path, x: Node) {
    match x
    case Leaf(v) => it == Value(v)
    case Section(_) => p in at && it == Sub(at[p])
  }

  ghost predicate EntryFits(row: map<string, Item>, at: Places, p: Path, n: Node, k: string) {
    && (k in row <==> Lookup(n, p + [k]).Some?)
    && (k in row ==> Stores(row[k], at, p + [k], Lookup(n, p + [k]).value))
  }

  ghost predicate RowFits(row: map<string, Item>, at: Places, p: Path, n: Node) {
    forall k :: EntryFits(row, at, p, n, k)
  }

  ghost predicate Unshared(at: Places) {
    forall p, q :: p in at && q in at && at[p] == at[q] ==> p == q
  }

  /** The contents `rows` of the dictionaries at `at` spell out the tree `n`. */
  ghost predicate Spells(rows: Rows, at: Places, n: Node) {
    && rows.Keys == at.Keys
    && (forall p :: p in at <==> IsSection(n, p))
    && (forall p :: p in rows ==> RowFits(rows[p], at, p, n))
  }

  ghost function Contents(at: Places): Rows
    reads at.Values
  {
    map p | p in at :: at[p].items
  }

  /** The dictionaries at `at`, none of them shared, now hold the tree `n`. */
  ghost predicate Holds(at: Places, n: Node)
    reads at.Values
  {
    Unshared(at) && Spells(Contents(at), at, n)
  }

  // ----- One entry changes.

  /** The places of a tree once the part at `p` is exchanged for a tree placed at `xat`. */
  ghost function Graft<T>(at: map<Path, T>, p: Path, xat: map<Path, T>): map<Path, T> {
    map q | q in at.Keys + (set r | r in xat :: p + r) && (p <= q ==> q[|p|..] in xat)
      :: if p <= q then xat[q[|p|..]] else at[q]
  }

  lemma GraftIn<T>(at: map<Path, T>, p: Path, xat: map<Path, T>, q: Path)
    ensures q in Graft(at, p, xat) <==> if p <= q then q[|p|..] in xat else q in at
    ensures q in Graft(at, p, xat) ==> Graft(at, p, xat)[q] == if p <= q then xat[q[|p|..]] else at[q]
  {
    if p <= q {
      assert q == p + q[|p|..];
    }
  }

  /** A tree that may be missing, and its dictionaries. */
  ghost predicate SpellsEntry(rows: Rows, at: Places, y: Option<Node>) {
    match y
    case None => rows == map[] && at == map[]
    case Some(x) => Spells(rows, at, x)
  }

  /** `m` is `n` with the part at `p`, and only that, replaced by `y`. */
  ghost predicate Exchanged(n: Node, p: Path, y: Option<Node>, m: Node) {
    forall q :: ExchangedAt(n, p, y, m, q)
  }

  ghost predicate ExchangedAt(n: Node, p: Path, y: Option<Node>, m: Node, q: Path) {
    if p <= q then Lookup(m, q) == (match y case None => None case Some(x) => Lookup(x, q[|p|..]))
    else if q <= p then IsSection(m, q)
    else Lookup(m, q) == Lookup(n, q)
  }

  ghost function RowChanged(row: map<string, Item>, k: string, it: Option<Item>): map<string, Item> {
    match it
    case None => row - {k}
    case Some(i) => row[k := i]
  }

  lemma {:induction false} SectionAbove(n: Node, p: Path, q: Path)
    requires IsSection(n, p) && q <= p
    ensures IsSection(n, q)
    decreases q
  {
    if q != [] {
      assert p[1..][..|q| - 1] == q[1..];
      SectionAbove(n.kids[p[0]], p[1..], q[1..]);
    }
  }

  /** The setting of one change: below the section at `p`, the entry `k` becomes `y`. */
  ghost predicate Change(rows: Rows, at: Places, n: Node, p: Path, k: string,
                         xrows: Rows, xat: Places, y: Option<Node>, it: Option<Item>, m: Node) {
    && Spells(rows, at, n) && p in at && SpellsEntry(xrows, xat, y)
    && Exchanged(n, p + [k], y, m)
    && it.Some? == y.Some?
    && (it.Some? ==> Stores(it.value, Graft(at, p + [k], xat), p + [k], y.value))
  }

  lemma EntryInside(xrows: Rows, xat: Places, x: Node, at: Places, n: Node, e: Path, m: Node, q: Path, j: string)
    requires Spells(xrows, xat, x) && Exchanged(n, e, Some(x), m) && e <= q && q[|e|..] in xrows
    ensures EntryFits(xrows[q[|e|..]], Graft(at, e, xat), q, m, j)
  {
    var s := q[|e|..];
    var r := q + [j];
    assert r == e + (s + [j]) && r[|e|..] == s + [j];
    assert ExchangedAt(n, e, Some(x), m, r);
    GraftIn(at, e, xat, r);
    assert EntryFits(xrows[s], xat, s, x, j);
  }

  lemma LastStep(p: Path, k: string, q: Path, j: string)
    requires p + [k] <= q + [j]
    ensures p + [k] <= q || (p == q && k == j)
  {
    if |p| < |q| {
      assert (q + [j])[..|p| + 1] == q[..|p| + 1];
    } else {
      assert p == (p + [k])[..|p|] && q == (q + [j])[..|q|] && (p + [k])[|p|] == k && (q + [j])[|q|] == j;
    }
  }

  lemma EntryBeside(rows: Rows, at: Places, n: Node, p: Path, k: string,
                    xat: Places, y: Option<Node>, m: Node, q: Path, j: string)
    requires Spells(rows, at, n) && p in at && Exchanged(n, p + [k], y, m)
    requires q in rows && !(p + [k] <= q) && (q == p ==> j != k)
    ensures EntryFits(rows[q], Graft(at, p + [k], xat), q, m, j)
  {
    var e := p + [k];
    var r := q + [j];
    assert EntryFits(rows[q], at, q, n, j);
    assert ExchangedAt(n, e, y, m, r);
    GraftIn(at, e, xat, r);
    if e <= r {
      LastStep(p, k, q, j);
    }
    if r <= e {
      assert p == e[..|p|] && r == e[..|r|];
      SectionAbove(n, p, r);
    }
  }

  lemma ChangedEntry(rows: Rows, at: Places, n: Node, p: Path, k: string,
                     xrows: Rows, xat: Places, y: Option<Node>, it: Option<Item>, m: Node, q: Path, j: string)
    requires Change(rows, at, n, p, k, xrows, xat, y, it, m)
    requires q in Graft(rows[p := RowChanged(rows[p], k, it)], p + [k], xrows)
    ensures EntryFits(Graft(rows[p := RowChanged(rows[p], k, it)], p + [k], xrows)[q], Graft(at, p + [k], xat), q, m, j)
  {
    var e := p + [k];
    GraftIn(rows[p := RowChanged(rows[p], k, it)], e, xrows, q);
    if e <= q {
      EntryInside(xrows, xat, y.value, at, n, e, m, q, j);
    } else if q == p && j == k {
      assert ExchangedAt(n, e, y, m, e);
    } else {
      EntryBeside(rows, at, n, p, k, xat, y, m, q, j);
    }
  }

  lemma ChangedPlaces(rows: Rows, at: Places, n: Node, p: Path, k: string,
                      xrows: Rows, xat: Places, y: Option<Node>, it: Option<Item>, m: Node, q: Path)
    requires Change(rows, at, n, p, k, xrows, xat, y, it, m)
    ensures q in Graft(at, p + [k], xat) <==> IsSection(m, q)
    ensures q in Graft(at, p + [k], xat) <==> q in Graft(rows[p := RowChanged(rows[p], k, it)], p + [k], xrows)
  {
    var e := p + [k];
    GraftIn(rows[p := RowChanged(rows[p], k, it)], e, xrows, q);
    GraftIn(at, e, xat, q);
    assert ExchangedAt(n, e, y, m, q);
    if q <= e && !(e <= q) {
      assert p == e[..|p|] && q == e[..|q|];
      SectionAbove(n, p, q);
    }
  }

  /** Changing one entry of one dictionary changes the whole tree there and nowhere else. */
  lemma Changed(rows: Rows, at: Places, n: Node, p: Path, k: string,
                xrows: Rows, xat: Places, y: Option<Node>, it: Option<Item>, m: Node)
    requires Change(rows, at, n, p, k, xrows, xat, y, it, m)
    ensures Spells(Graft(rows[p := RowChanged(rows[p], k, it)], p + [k], xrows), Graft(at, p + [k], xat), m)
  {
    var rows' := Graft(rows[p := RowChanged(rows[p], k, it)], p + [k], xrows);
    var at' := Graft(at, p + [k], xat);
    forall q ensures (q in at' <==> IsSection(m, q)) && (q in at' <==> q in rows') {
      ChangedPlaces(rows, at, n, p, k, xrows, xat, y, it, m, q);
    }
    forall q | q in rows' ensures RowFits(rows'[q], at', q, m) {
      forall j ensures EntryFits(rows'[q], at', q, m, j) {
        ChangedEntry(rows, at, n, p, k, xrows, xat, y, it, m, q, j);
      }
    }
  }

  // ----- The walks.

  lemma SetExchanges(n: Node, p: Path, x: Node)
    requires p != [] && Set(n, p, x).Some?
    ensures Exchanged(n, p, Some(x), Set(n, p, x).value)
  {
    forall q ensures ExchangedAt(n, p, Some(x), Set(n, p, x).value, q) {
      LookupSet(n, p, x, q);
    }
  }

  lemma SetBelowSection(n: Node, p: Path, k: string, x: Node)
    requires IsSection(n, p)
    ensures Set(n, p + [k], x).Some?
  {
    SetSucceeds(n, p + [k], x);
    forall i | 0 <= i < |p + [k]| ensures LeafAt(n, (p + [k])[..i]).None? {
      assert (p + [k])[..i] == p[..i];
      SectionAbove(n, p, p[..i]);
    }
  }

  /** Creating the next missing section on the way does not change what the write amounts to. */
  lemma {:induction false} SetThroughEmpty(n: Node, p: Path, i: nat, x: Node)
    requires 0 < i < |p| && Lookup(n, p[..i]) == None && Set(n, p[..i], EMPTY).Some?
    ensures Set(Set(n, p[..i], EMPTY).value, p, x) == Set(n, p, x)
    decreases i
  {
    var kid := Kid(n, p[0]);
    assert p[..i][1..] == p[1..][..i - 1];
    if i > 1 {
      if p[0] !in n.kids {
        assert Lookup(EMPTY, p[1..][..i - 1]) == None;
      }
      SetThroughEmpty(kid, p[1..], i - 1, x);
      var m := Set(kid, p[1..][..i - 1], EMPTY).value;
      assert Set(n, p[..i], EMPTY) == Some(Section(n.kids[p[0] := m]));
      SameUpdate(n.kids, p[0], m, Set(kid, p[1..], x));
    } else {
      SameUpdate(n.kids, p[0], EMPTY, Set(kid, p[1..], x));
    }
  }

  lemma SameUpdate(kids: map<string, Node>, k: string, m: Node, y: Option<Node>)
    ensures y.Some? ==> kids[k := m][k := y.value] == kids[k := y.value]
  {
  }

  /** `it` is the way a dictionary stores the tree `x` placed at `xat`. */
  ghost predicate ItemOf(it: Item, xat: Places, x: Node) {
    Stores(it, xat, [], x)
  }

  /** The dictionaries outside the part at `e`. */
  ghost function Outside(at: Places, e: Path): set<Dict> {
    set q | q in at && !(e <= q) :: at[q]
  }

  lemma GraftUnshared(at: Places, e: Path, xat: Places)
    requires Unshared(at) && Unshared(xat) && Outside(at, e) !! xat.Values
    ensures Unshared(Graft(at, e, xat))
  {
    var at' := Graft(at, e, xat);
    forall q, r | q in at' && r in at' && at'[q] == at'[r] ensures q == r {
      GraftPair(at, e, xat, q, r);
    }
  }

  lemma GraftPair(at: Places, e: Path, xat: Places, q: Path, r: Path)
    requires Unshared(at) && Unshared(xat) && Outside(at, e) !! xat.Values
    requires q in Graft(at, e, xat) && r in Graft(at, e, xat) && Graft(at, e, xat)[q] == Graft(at, e, xat)[r]
    ensures q == r
  {
    var d := Graft(at, e, xat)[q];
    GraftIn(at, e, xat, q);
    GraftIn(at, e, xat, r);
    if e <= q {
      assert d in xat.Values;
    } else {
      assert d in Outside(at, e);
    }
    if e <= r {
      assert d in xat.Values;
      assert q == e + q[|e|..] && r == e + r[|e|..];
    } else {
      assert d in Outside(at, e);
    }
  }

  lemma GraftContents(at: Places, e: Path, xat: Places)
    ensures Contents(Graft(at, e, xat)) == Graft(Contents(at), e, Contents(xat))
  {
    var at' := Graft(at, e, xat);
    var rows' := Graft(Contents(at), e, Contents(xat));
    forall q ensures (q in at' <==> q in rows') && (q in at' ==> at'[q].items == rows'[q]) {
      GraftIn(at, e, xat, q);
      GraftIn(Contents(at), e, Contents(xat), q);
    }
  }

  lemma OneRow(rows: Rows, at: Places, p: Path, row: map<string, Item>)
    requires Unshared(at) && p in at && rows.Keys == at.Keys
    requires at[p].items == row
    requires forall q :: q in at && at[q] != at[p] ==> at[q].items == rows[q]
    ensures Contents(at) == rows[p := row]
  {
  }

  /** `current[k] = it` */
  method Put(current: Dict, k: string, it: Item,
             ghost at: Places, ghost n: Node, ghost p: Path, ghost xat: Places, ghost x: Node, ghost m: Node)
    requires Holds(at, n) && p in at && at[p] == current
    requires Holds(xat, x) && ItemOf(it, xat, x) && Outside(at, p + [k]) !! xat.Values
    requires Exchanged(n, p + [k], Some(x), m)
    modifies current
    ensures current.items == old(current.items)[k := it]
    ensures Holds(Graft(at, p + [k], xat), m)
  {
    ghost var rows, xrows := Contents(at), Contents(xat);
    assert current in Outside(at, p + [k]);
    current.items := current.items[k := it];
    OneRow(rows, at, p, current.items);
    assert Contents(xat) == xrows;
    GraftContents(at, p + [k], xat);
    GraftUnshared(at, p + [k], xat);
    StoresGrafted(it, at, p + [k], xat, x);
    Changed(rows, at, n, p, k, xrows, xat, Some(x), Some(it), m);
  }

  lemma StoresGrafted(it: Item, at: Places, e: Path, xat: Places, x: Node)
    requires ItemOf(it, xat, x)
    ensures Stores(it, Graft(at, e, xat), e, x)
  {
    GraftIn(at, e, xat, e);
    assert e[|e|..] == [];
  }

  /** `del current[k]` */
  method Delete(current: Dict, k: string, ghost at: Places, ghost n: Node, ghost p: Path, ghost m: Node)
    requires Holds(at, n) && p in at && at[p] == current && k in current.items
    requires Exchanged(n, p + [k], None, m)
    modifies current
    ensures current.items == old(current.items) - {k}
    ensures Holds(Graft(at, p + [k], map[]), m)
  {
    ghost var rows := Contents(at);
    ghost var none: Places := map[];
    current.items := current.items - {k};
    OneRow(rows, at, p, current.items);
    GraftContents(at, p + [k], none);
    GraftUnshared(at, p + [k], none);
    Changed(rows, at, n, p, k, map[], none, None, None, m);
  }

  /** The places of `at` are kept. */
  ghost predicate Grown(at: Places, at': Places) {
    forall q :: q in at ==> q in at' && at'[q] == at[q]
  }

  /** `current[part] = {}` for a part that is missing. */
  method Create(current: Dict, parts: Path, i: nat, created: Dict, ghost at: Places, ghost n: Node, ghost x: Node)
    returns (ghost at': Places, ghost m: Node)
    requires i + 1 < |parts| && Holds(at, n) && parts[..i] in at && at[parts[..i]] == current
    requires parts[i] !in current.items && created.items == map[] && created !in at.Values
    modifies current
    ensures current.items == old(current.items)[parts[i] := Sub(created)]
    ensures Holds(at', m) && Set(m, parts, x) == Set(n, parts, x)
    ensures at'.Values <= at.Values + {created} && Grown(at, at')
    ensures parts[..i] in at'
  {
    ghost var p := parts[..i + 1];
    ghost var single: Places := map[[] := created];
    assert parts[..i] + [parts[i]] == p;
    assert EntryFits(Contents(at)[parts[..i]], at, parts[..i], n, parts[i]);
    SetBelowSection(n, parts[..i], parts[i], EMPTY);
    SetExchanges(n, p, EMPTY);
    SetThroughEmpty(n, parts, i + 1, x);
    m := Set(n, p, EMPTY).value;
    at' := Graft(at, p, single);
    EmptyHolds(created);
    Put(current, parts[i], Sub(created), at, n, parts[..i], single, EMPTY, m);
    GraftOutside(at, n, p, single);
  }

  lemma EmptyHolds(d: Dict)
    requires d.items == map[]
    ensures Holds(map[[] := d], EMPTY)
  {
  }

  /** Where nothing stood, a graft displaces nothing. */
  lemma GraftOutside(at: Places, n: Node, p: Path, xat: Places)
    requires forall q :: q in at ==> IsSection(n, q)
    requires !IsSection(n, p)
    ensures Graft(at, p, xat).Values <= at.Values + xat.Values
    ensures Grown(at, Graft(at, p, xat))
  {
    forall q | q in at ensures q in Graft(at, p, xat) && Graft(at, p, xat)[q] == at[q] {
      if p <= q {
        SectionAbove(n, q, p);
      }
      GraftIn(at, p, xat, q);
    }
  }

  /** The walk has reached `current` at `p`; the write that remains to be done is the one asked for. */
  ghost predicate Reached(at: Places, m: Node, p: Path, current: Dict, parts: Path, x: Node, n: Node)
    reads at.Values
  {
    Holds(at, m) && p in at && at[p] == current && parts != [] && Set(m, parts, x) == Set(n, parts, x)
  }

  /** A step of the walk: into the section, or against the scalar, that the entry holds. */
  lemma Step(at: Places, m: Node, parts: Path, i: nat, current: Dict, x: Node, n: Node)
    requires i + 1 < |parts| && Reached(at, m, parts[..i], current, parts, x, n) && parts[i] in current.items
    ensures match current.items[parts[i]]
      case Value(_) => Set(n, parts, x) == None
      case Sub(d) => Reached(at, m, parts[..i + 1], d, parts, x, n)
  {
    assert parts[..i] + [parts[i]] == parts[..i + 1];
    assert EntryFits(Contents(at)[parts[..i]], at, parts[..i], m, parts[i]);
    if current.items[parts[i]].Value? {
      SetSucceeds(m, parts, x);
      assert LeafAt(m, parts[..i + 1]).Some?;
    }
  }

  /** What the loop of the walk keeps. */
  ghost predicate Walking(start: Places, at: Places, m: Node, parts: Path, i: nat, current: Dict, x: Node, n: Node)
    reads at.Values
  {
    i < |parts| && Reached(at, m, parts[..i], current, parts, x, n) && Grown(start, at) && current in at.Values
  }

  lemma WalkOn(start: Places, at: Places, at': Places, m: Node, parts: Path, i: nat, current: Dict, x: Node, n: Node)
    requires Grown(start, at) && Grown(at, at')
    requires i < |parts| && Reached(at', m, parts[..i], current, parts, x, n)
    ensures Walking(start, at', m, parts, i, current, x, n)
  {
  }

  /** The dictionaries that the tree has on the way to `p`. */
  ghost function Way(at: Places, p: Path): set<Dict> {
    set q | q in at && q <= p && q != p :: at[q]
  }

  lemma CurrentOnWay(start: Places, at: Places, m: Node, parts: Path, i: nat, current: Dict, x: Node, n: Node)
    requires Walking(start, at, m, parts, i, current, x, n)
    ensures current in Way(start, parts) || current !in start.Values
  {
  }

  /** One turn of the walk: create the part if it is missing, then step into it. */
  method Enter(current: Dict, parts: Path, i: nat,
               ghost start: Places, ghost at: Places, ghost n: Node, ghost x: Node, ghost m: Node)
    returns (next: Option<Dict>, ghost at': Places, ghost m': Node)
    requires i + 1 < |parts| && Walking(start, at, m, parts, i, current, x, n)
    modifies current
    ensures old(current.items) == map[] ==> next.Some? && next.value.items == map[]
    ensures next.None? ==> Set(n, parts, x) == None && Walking(start, at, m, parts, i, current, x, n)
    ensures next.Some? ==> Walking(start, at', m', parts, i + 1, next.value, x, n) && fresh(at'.Values - at.Values)
    ensures next.Some? ==> (at' == at && m' == m) || next.value.items == map[]
  {
    at', m' := at, m;
    if parts[i] !in current.items {
      var created := new Dict(map[]);
      at', m' := Create(current, parts, i, created, at, m, x);
      Step(at', m', parts, i, current, x, n);
      WalkOn(start, at, at', m', parts, i + 1, created, x, n);
      next := Some(created);
    } else {
      Step(at, m, parts, i, current, x, n);
      match current.items[parts[i]]
      case Value(_) => next := None;
      case Sub(d) =>
        WalkOn(start, at, at, m, parts, i + 1, d, x, n);
        next := Some(d);
    }
  }

  lemma WalkStarts(root: Dict, parts: Path, at: Places, n: Node, x: Node)
    requires parts != [] && Holds(at, n) && [] in at && at[[]] == root
    ensures Walking(at, at, n, parts, 0, root, x, n)
  {
  }

  /** `for part in parts[:-1]`: nothing is created before a scalar is met. */
  method Descend(root: Dict, parts: Path, ghost at: Places, ghost n: Node, ghost x: Node)
    returns (ok: bool, current: Dict, i: nat, ghost at': Places, ghost m: Node)
    requires Walking(at, at, n, parts, 0, root, x, n)
    modifies Way(at, parts)
    ensures Walking(at, at', m, parts, i, current, x, n) && fresh(at'.Values - at.Values)
    ensures if ok then i == |parts| - 1 else Set(n, parts, x) == None && at' == at && m == n
  {
    current, i, at', m := root, 0, at, n;
    while i < |parts| - 1
      invariant Walking(at, at', m, parts, i, current, x, n) && fresh(at'.Values - at.Values)
      invariant current.items == map[] || (at' == at && m == n)
    {
      var next;
      ghost var at2, m2;
      CurrentOnWay(at, at', m, parts, i, current, x, n);
      next, at2, m2 := Enter(current, parts, i, at, at', n, x, m);
      if next.None? {
        ok := false;
        return;
      }
      current, at', m, i := next.value, at2, m2, i + 1;
    }
    ok := true;
  }

  lemma WayAndLast(parts: Path)
    requires parts != []
    ensures parts[..|parts| - 1] + [parts[|parts| - 1]] == parts
  {
  }

  /** `current[parts[-1]] = value` */
  method PutLast(current: Dict, parts: Path, it: Item, ghost at: Places, ghost m: Node, ghost n: Node,
                 ghost xat: Places, ghost x: Node)
    requires parts != [] && Reached(at, m, parts[..|parts| - 1], current, parts, x, n)
    requires Holds(xat, x) && ItemOf(it, xat, x) && at.Values !! xat.Values
    modifies current
    ensures Set(n, parts, x).Some? && Holds(Graft(at, parts, xat), Set(n, parts, x).value)
  {
    WayAndLast(parts);
    SetBelowSection(m, parts[..|parts| - 1], parts[|parts| - 1], x);
    SetExchanges(m, parts, x);
    Put(current, parts[|parts| - 1], it, at, m, parts[..|parts| - 1], xat, x, Set(m, parts, x).value);
  }

  /** Every dictionary that was placed outside `p` is still where it was. */
  ghost predicate StillPlaced(at: Places, p: Path, at': Places) {
    forall q :: q in at && !(p <= q) ==> q in at' && at'[q] == at[q]
  }

  /** Every dictionary that was placed at or below `p` has left the tree. */
  ghost predicate Displaced(at: Places, p: Path, at': Places) {
    forall q :: q in at && p <= q ==> at[q] !in at'.Values
  }

  /** `_set_nested_value` and `_set_nested`: the tree under `root` becomes what `Set` makes of
      it, with no dictionary created but the missing ones; where a scalar blocks the way the
      call raises and no dictionary has changed. */
  method SetNestedValue(root: Dict, parts: Path, it: Item, ghost at: Places, ghost n: Node, ghost xat: Places, ghost x: Node)
    returns (ok: bool, ghost at': Places)
    requires parts != [] && Holds(at, n) && [] in at && at[[]] == root
    requires Holds(xat, x) && ItemOf(it, xat, x) && at.Values !! xat.Values
    modifies Way(at, parts)
    ensures ok <==> Set(n, parts, x).Some?
    ensures ok ==> Holds(at', Set(n, parts, x).value) && StillPlaced(at, parts, at') && Displaced(at, parts, at')
    ensures ok ==> fresh(at'.Values - at.Values - xat.Values)
    ensures !ok ==> Holds(at, n)
  {
    ghost var m;
    var current;
    var i;
    WalkStarts(root, parts, at, n, x);
    ok, current, i, at', m := Descend(root, parts, at, n, x);
    if ok {
      assert Holds(xat, x);
      CurrentOnWay(at, at', m, parts, i, current, x, n);
      PutLast(current, parts, it, at', m, n, xat, x);
      GraftPlaced(at, at', parts, xat);
      at' := Graft(at', parts, xat);
    }
  }

  lemma GraftPlaced(at: Places, at': Places, p: Path, xat: Places)
    requires Grown(at, at') && Unshared(at') && at'.Values !! xat.Values
    ensures StillPlaced(at, p, Graft(at', p, xat)) && Displaced(at, p, Graft(at', p, xat))
    ensures Graft(at', p, xat).Values <= at'.Values + xat.Values
  {
    var g := Graft(at', p, xat);
    forall q, r | q in at && p <= q && r in g ensures g[r] != at[q] {
      GraftIn(at', p, xat, r);
      assert at'[q] in at'.Values;
    }
  }

  /** Another top dictionary with the same entries, over the same nested ones. */
  lemma Retop(at: Places, n: Node, top: Dict)
    requires Holds(at, n) && [] in at && top !in at.Values && top.items == at[[]].items
    ensures Holds(at[[] := top], n)
  {
    var at' := at[[] := top];
    forall p | p in at' ensures RowFits(Contents(at')[p], at', p, n) {
      forall k ensures EntryFits(Contents(at')[p], at', p, n, k) {
        assert EntryFits(Contents(at)[p], at, p, n, k);
      }
    }
  }

  // ----- Deleting.

  lemma {:induction false} RemoveMissing(n: Node, p: Path)
    requires p != [] && Lookup(n, p) == None
    ensures Remove(n, p) == n
    decreases p
  {
    if n.Section? {
      if |p| == 1 {
        assert p[1..] == [];
        assert n.kids - {p[0]} == n.kids;
      } else if p[0] in n.kids {
        RemoveMissing(n.kids[p[0]], p[1..]);
        assert n.kids[p[0] := n.kids[p[0]]] == n.kids;
      }
    }
  }

  lemma {:induction false} LookupRemove(n: Node, p: Path, q: Path)
    requires p != [] && Lookup(n, p).Some?
    ensures ExchangedAt(n, p, None, Remove(n, p), q)
    decreases p
  {
    if |p| == 1 {
      if p <= q {
        assert q[0] == p[0];
      }
    } else if q != [] && q[0] == p[0] {
      PrefixTail(p, q);
      PrefixTail(q, p);
      LookupRemove(n.kids[p[0]], p[1..], q[1..]);
    }
  }

  /** What `current` is while the walk stands at `p`. */
  ghost predicate Standing(at: Places, n: Node, p: Path, current: Item) {
    Lookup(n, p).Some? && Stores(current, at, p, Lookup(n, p).value)
  }

  lemma Descent(at: Places, n: Node, p: Path, k: string, d: Dict)
    requires Holds(at, n) && Standing(at, n, p, Sub(d))
    ensures k in d.items <==> Lookup(n, p + [k]).Some?
    ensures k in d.items ==> Standing(at, n, p + [k], d.items[k])
  {
    assert EntryFits(Contents(at)[p], at, p, n, k);
  }

  lemma {:induction false} NothingBeyond(n: Node, p: Path, q: Path)
    requires p <= q && (Lookup(n, p) == None || (p != q && Lookup(n, p).value.Leaf?))
    ensures Lookup(n, q) == None
  {
    LookupAppend(n, p, q[|p|..]);
    assert q == p + q[|p|..];
  }

  /** `_remove_nested_value` */
  method RemoveNestedValue(root: Dict, parts: Path, ghost at: Places, ghost n: Node) returns (ghost at': Places)
    requires parts != [] && Holds(at, n) && [] in at && at[[]] == root
    modifies Way(at, parts)
    ensures Holds(at', Remove(n, parts)) && at'.Values <= at.Values
    ensures StillPlaced(at, parts, at') && Displaced(at, parts, at')
  {
    var current := Sub(root);
    var i := 0;
    at' := at;
    assert parts[..0] == [];
    while i < |parts| - 1
      invariant 0 <= i < |parts| && Holds(at, n) && Standing(at, n, parts[..i], current)
    {
      if current.Value? || parts[i] !in current.d.items {
        Missing(at, n, parts, i, current);
        return;
      }
      Descent(at, n, parts[..i], parts[i], current.d);
      assert parts[..i] + [parts[i]] == parts[..i + 1];
      current, i := current.d.items[parts[i]], i + 1;
    }
    WayAndLast(parts);
    if current.Sub? && parts[i] in current.d.items {
      Descent(at, n, parts[..i], parts[i], current.d);
      forall q ensures ExchangedAt(n, parts, None, Remove(n, parts), q) {
        LookupRemove(n, parts, q);
      }
      assert current.d in Way(at, parts);
      Delete(current.d, parts[i], at, n, parts[..i], Remove(n, parts));
      GraftPlaced(at, at, parts, map[]);
      at' := Graft(at, parts, map[]);
    } else {
      Missing(at, n, parts, i, current);
    }
  }

  lemma Missing(at: Places, n: Node, parts: Path, i: nat, current: Item)
    requires Holds(at, n) && i < |parts| && Standing(at, n, parts[..i], current)
    requires current.Value? || parts[i] !in current.d.items
    ensures Remove(n, parts) == n && Displaced(at, parts, at)
  {
    assert parts[..i] + [parts[i]] == parts[..i + 1];
    if current.Sub? {
      Descent(at, n, parts[..i], parts[i], current.d);
      NothingBeyond(n, parts[..i + 1], parts);
    } else {
      NothingBeyond(n, parts[..i], parts);
    }
    RemoveMissing(n, parts);
    forall q | q in at ensures !(parts <= q) {
      if parts <= q {
        SectionAbove(n, q, parts);
      }
    }
  }
}
