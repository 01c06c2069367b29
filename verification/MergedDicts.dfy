/** `_merge_config` on the heap: the result is a new dictionary that takes over entries of both
    sides as they are, nested dictionaries included, and no dictionary of either side is
    written. It is proved to hold what `ConfigMerge.Overlay` says. */
module MergedDicts {
  import opened Wrappers
  import opened ConfigTree
  import opened ConfigMerge
  import opened NestedDicts

  /** The places of the part of a tree at the entry `k`. */
  ghost function Under(at: Places, k: string): Places {
    map q | q in (set r | r in at && r != [] && r[0] == k :: r[1..]) && [k] + q in at :: at[[k] + q]
  }

  lemma UnderIn(at: Places, k: string, q: Path)
    ensures q in Under(at, k) <==> [k] + q in at
    ensures q in Under(at, k) ==> Under(at, k)[q] == at[[k] + q]
  {
    if [k] + q in at {
      assert ([k] + q)[1..] == q;
    }
  }

  lemma LookupUnder(n: Node, k: string, q: Path)
    requires n.Section? && k in n.kids
    ensures Lookup(n, [k] + q) == Lookup(n.kids[k], q)
  {
    assert ([k] + q)[1..] == q;
  }

  lemma UnderEntry(rows: Rows, at: Places, n: Node, k: string, q: Path, j: string)
    requires Spells(rows, at, n) && n.Section? && k in n.kids && [k] + q in rows
    ensures EntryFits(rows[[k] + q], Under(at, k), q, n.kids[k], j)
  {
    assert EntryFits(rows[[k] + q], at, [k] + q, n, j);
    assert ([k] + q) + [j] == [k] + (q + [j]);
    LookupUnder(n, k, q + [j]);
    UnderIn(at, k, q + [j]);
  }

  /** The part at an entry is held by the dictionaries there. */
  lemma UnderHolds(at: Places, n: Node, k: string)
    requires Holds(at, n) && n.Section? && k in n.kids
    ensures Holds(Under(at, k), n.kids[k]) && Under(at, k).Values <= at.Values
  {
    var u := Under(at, k);
    forall q ensures (q in u <==> IsSection(n.kids[k], q)) && (q in u ==> u[q] == at[[k] + q]) {
      UnderIn(at, k, q);
      LookupUnder(n, k, q);
    }
    forall q | q in u ensures RowFits(Contents(u)[q], u, q, n.kids[k]) {
      forall j ensures EntryFits(Contents(u)[q], u, q, n.kids[k], j) {
        UnderEntry(Contents(at), at, n, k, q, j);
      }
    }
    forall p, q | p in u && q in u && u[p] == u[q] ensures p == q {
      assert ([k] + p)[1..] == p && ([k] + q)[1..] == q;
    }
  }

  /** How the top dictionary stores an entry. */
  lemma TopEntry(at: Places, n: Node, k: string)
    requires Holds(at, n) && [] in at
    ensures n.Section? && (k in at[[]].items <==> k in n.kids)
    ensures k in n.kids ==> ItemOf(at[[]].items[k], Under(at, k), n.kids[k])
  {
    assert EntryFits(Contents(at)[[]], at, [], n, k);
    assert [] + [k] == [k] && [k] + [] == [k];
    if k in n.kids {
      LookupUnder(n, k, []);
      UnderIn(at, k, []);
    } else {
      assert Lookup(n, [k]) == None;
    }
  }

  lemma TopKeys(at: Places, n: Node)
    requires Holds(at, n) && [] in at
    ensures n.Section? && at[[]].items.Keys == n.kids.Keys
  {
    forall k ensures k in at[[]].items <==> n.Section? && k in n.kids {
      TopEntry(at, n, k);
    }
  }

  // ----- The tree half way through.

  function MergedNow(a: Node, o: Node, done: set<string>): Node
    requires BothSections(a, o) && done <= o.kids.Keys
  {
    Section(map k | k in a.kids.Keys + done :: if k in done then Overlay(a, o).kids[k] else a.kids[k])
  }

  lemma MergedSteps(a: Node, o: Node, done: set<string>, k: string)
    requires BothSections(a, o) && done <= o.kids.Keys && k in o.kids
    ensures Set(MergedNow(a, o, done), [k], Overlay(a, o).kids[k]) == Some(MergedNow(a, o, done + {k}))
  {
    assert MergedNow(a, o, done).kids[k := Overlay(a, o).kids[k]] == MergedNow(a, o, done + {k}).kids;
  }

  lemma MergedBounds(a: Node, o: Node)
    requires BothSections(a, o)
    ensures MergedNow(a, o, {}) == a && MergedNow(a, o, o.kids.Keys) == Overlay(a, o)
  {
    assert MergedNow(a, o, {}).kids == a.kids;
    assert MergedNow(a, o, o.kids.Keys).kids == Overlay(a, o).kids;
  }

  /** Where the merge has not been, the result has the base's dictionaries. */
  ghost predicate Untouched(at: Places, rat: Places, done: set<string>) {
    forall q :: q in at && q != [] && q[0] !in done ==> q in rat && rat[q] == at[q]
  }

  /** And none of the override's. */
  ghost predicate Clear(oat: Places, rat: Places, done: set<string>) {
    forall q :: q in oat && (q == [] || q[0] !in done) ==> oat[q] !in rat.Values
  }

  /** What is put at `k` is made of dictionaries from there on both sides, and of new ones. */
  ghost predicate FromHere(xat: Places, at: Places, oat: Places, k: string, made: set<Dict>) {
    xat.Values <= Under(at, k).Values + Under(oat, k).Values + made
  }

  lemma UnderValue(at: Places, k: string, d: Dict) returns (q: Path)
    requires d in Under(at, k).Values
    ensures q in at && q != [] && q[0] == k && at[q] == d && d in at.Values
  {
    var r :| r in Under(at, k) && Under(at, k)[r] == d;
    UnderIn(at, k, r);
    q := [k] + r;
  }

  lemma UnderValues(at: Places, k: string)
    ensures Under(at, k).Values <= at.Values
  {
    forall d | d in Under(at, k).Values ensures d in at.Values {
      var q := UnderValue(at, k, d);
    }
  }

  lemma ApartHere(at: Places, oat: Places, rat: Places, done: set<string>, k: string, xat: Places, made: set<Dict>)
    requires Unshared(rat) && Untouched(at, rat, done) && Clear(oat, rat, done) && k !in done
    requires FromHere(xat, at, oat, k, made) && made !! rat.Values
    ensures Outside(rat, [k]) !! xat.Values
  {
    forall q | q in rat && !([k] <= q) ensures rat[q] !in xat.Values {
      var d := rat[q];
      assert d in rat.Values;
      if d in Under(at, k).Values {
        var p := UnderValue(at, k, d);
        assert rat[p] == d;
      } else if d in Under(oat, k).Values {
        var p := UnderValue(oat, k, d);
      }
    }
  }

  lemma NotFromHere(at: Places, oat: Places, k: string, xat: Places, made: set<Dict>, q: Path)
    requires Unshared(oat) && at.Values !! oat.Values && made !! oat.Values && FromHere(xat, at, oat, k, made)
    requires q in oat && (q == [] || q[0] != k)
    ensures oat[q] !in xat.Values
  {
    assert oat[q] in oat.Values;
    if oat[q] in Under(at, k).Values {
      var p := UnderValue(at, k, oat[q]);
    }
    if oat[q] in Under(oat, k).Values {
      var p := UnderValue(oat, k, oat[q]);
    }
  }

  lemma TurnKeeps(at: Places, oat: Places, rat: Places, done: set<string>, k: string, xat: Places, made: set<Dict>)
    requires Unshared(oat) && at.Values !! oat.Values && made !! oat.Values
    requires Untouched(at, rat, done) && Clear(oat, rat, done) && FromHere(xat, at, oat, k, made)
    ensures Untouched(at, Graft(rat, [k], xat), done + {k}) && Clear(oat, Graft(rat, [k], xat), done + {k})
    ensures Graft(rat, [k], xat).Values - rat.Values - at.Values - oat.Values <= made
  {
    var g := Graft(rat, [k], xat);
    forall q | q in at && q != [] && q[0] !in done + {k} ensures q in g && g[q] == at[q] {
      GraftIn(rat, [k], xat, q);
    }
    forall d | d in g.Values ensures d in rat.Values + xat.Values {
      var q :| q in g && g[q] == d;
      GraftIn(rat, [k], xat, q);
    }
    UnderValues(at, k);
    UnderValues(oat, k);
    forall q | q in oat && (q == [] || q[0] !in done + {k}) ensures oat[q] !in g.Values {
      NotFromHere(at, oat, k, xat, made, q);
      assert oat[q] !in rat.Values;
    }
  }

  // ----- The merge.

  /** The loop with the keys in `done` behind it. */
  ghost predicate Merging(result: Dict, at: Places, a: Node, oat: Places, o: Node, done: set<string>, rat: Places)
    reads at.Values, oat.Values, rat.Values
  {
    && Holds(at, a) && [] in at && Holds(oat, o) && [] in oat && at.Values !! oat.Values
    && BothSections(a, o) && done <= o.kids.Keys && result !in at.Values + oat.Values
    && Holds(rat, MergedNow(a, o, done)) && [] in rat && rat[[]] == result
    && Untouched(at, rat, done) && Clear(oat, rat, done)
  }

  // In the methods below `known` is any set of dictionaries that exist before the call; the
  // result has none of them but those of the two sides.

  /** `self._merge_config(result[key], value)` */
  method MergeBoth(b: Dict, v: Dict, key: string, ghost at: Places, ghost a: Node, ghost oat: Places, ghost o: Node,
                   ghost known: set<Dict>)
    returns (sub: Dict, ghost xat: Places, ghost made: set<Dict>)
    requires Holds(at, a) && [] in at && Holds(oat, o) && [] in oat && at.Values !! oat.Values
    requires BothSections(a, o) && key in a.kids && key in o.kids && BothSections(a.kids[key], o.kids[key])
    requires key in at[[]].items && key in oat[[]].items
    requires at[[]].items[key] == Sub(b) && oat[[]].items[key] == Sub(v)
    ensures Holds(xat, Overlay(a, o).kids[key]) && ItemOf(Sub(sub), xat, Overlay(a, o).kids[key])
    ensures made !! known && FromHere(xat, at, oat, key, made)
    decreases o, 0
  {
    TopEntry(at, a, key);
    TopEntry(oat, o, key);
    UnderHolds(at, a, key);
    UnderHolds(oat, o, key);
    sub, xat := MergeDicts(b, v, Under(at, key), a.kids[key], Under(oat, key), o.kids[key], known);
    made := xat.Values - Under(at, key).Values - Under(oat, key).Values;
  }

  /** `result = base.copy()` */
  method StartMerge(base: Dict, ghost at: Places, ghost a: Node, ghost oat: Places, ghost o: Node, ghost known: set<Dict>)
    returns (result: Dict, ghost rat: Places)
    requires Holds(at, a) && [] in at && at[[]] == base
    requires Holds(oat, o) && [] in oat && at.Values !! oat.Values
    ensures fresh(result) && result !in known && rat.Values <= at.Values + {result}
    ensures Merging(result, at, a, oat, o, {}, rat)
  {
    TopEntry(at, a, "");
    TopEntry(oat, o, "");
    result := new Dict(base.items);
    rat := at[[] := result];
    Retop(at, a, result);
    MergedBounds(a, o);
  }

  /** A key the loop has not come to has the base's entry. */
  lemma SameTop(result: Dict, at: Places, a: Node, oat: Places, o: Node, done: set<string>, rat: Places, key: string)
    requires Merging(result, at, a, oat, o, done, rat) && key !in done && key in result.items && result.items[key].Sub?
    ensures key in at[[]].items && result.items[key] == at[[]].items[key] && key in a.kids && a.kids[key].Section?
  {
    TopEntry(at, a, key);
    TopEntry(rat, MergedNow(a, o, done), key);
    UnderIn(at, key, []);
    UnderIn(rat, key, []);
  }

  /** Whether both entries are dictionaries is whether both parts are sections; if not, the
      override's part is taken as it is. */
  lemma Entries(result: Dict, at: Places, a: Node, oat: Places, o: Node, done: set<string>, rat: Places, key: string)
    requires Merging(result, at, a, oat, o, done, rat) && key in o.kids && key !in done && key in oat[[]].items
    ensures if key in result.items && result.items[key].Sub? && oat[[]].items[key].Sub?
            then key in at[[]].items && result.items[key] == at[[]].items[key]
              && key in a.kids && BothSections(a.kids[key], o.kids[key])
            else Overlay(a, o).kids[key] == o.kids[key]
    ensures Holds(Under(oat, key), o.kids[key]) && ItemOf(oat[[]].items[key], Under(oat, key), o.kids[key])
  {
    TopEntry(oat, o, key);
    TopEntry(rat, MergedNow(a, o, done), key);
    UnderHolds(oat, o, key);
    if key in result.items && result.items[key].Sub? {
      SameTop(result, at, a, oat, o, done, rat, key);
    }
  }

  /** The entry the result gets at `key`. */
  method MergedItem(result: Dict, override: Dict, key: string, ghost at: Places, ghost a: Node, ghost oat: Places, ghost o: Node,
                    ghost done: set<string>, ghost rat: Places, ghost known: set<Dict>)
    returns (it: Item, ghost xat: Places, ghost made: set<Dict>)
    requires Merging(result, at, a, oat, o, done, rat) && oat[[]] == override
    requires key in o.kids && key !in done && key in override.items
    ensures Holds(xat, Overlay(a, o).kids[key]) && ItemOf(it, xat, Overlay(a, o).kids[key])
    ensures made !! known && FromHere(xat, at, oat, key, made)
    decreases o, 1
  {
    var value := override.items[key];
    Entries(result, at, a, oat, o, done, rat, key);
    if key in result.items && result.items[key].Sub? && value.Sub? {
      var sub;
      sub, xat, made := MergeBoth(result.items[key].d, value.d, key, at, a, oat, o, known);
      it := Sub(sub);
    } else {
      it, xat, made := value, Under(oat, key), {};
    }
  }

  /** `result[key] = ...` */
  method MergeTurn(result: Dict, override: Dict, key: string, ghost at: Places, ghost a: Node, ghost oat: Places, ghost o: Node,
                   ghost done: set<string>, ghost rat: Places, ghost known: set<Dict>)
    returns (ghost rat': Places)
    requires Merging(result, at, a, oat, o, done, rat) && oat[[]] == override
    requires key in o.kids && key !in done && key in override.items
    modifies result
    ensures Merging(result, at, a, oat, o, done + {key}, rat')
    ensures (rat'.Values - rat.Values - at.Values - oat.Values) !! known
    decreases o, 2
  {
    var it;
    ghost var xat, made;
    it, xat, made := MergedItem(result, override, key, at, a, oat, o, done, rat, rat.Values + oat.Values + known);
    TurnReady(result, at, a, oat, o, done, rat, key, xat, made);
    rat' := Graft(rat, [key], xat);
    PutBeside(result, key, it, rat, MergedNow(a, o, done), xat, Overlay(a, o).kids[key], MergedNow(a, o, done + {key}),
              at, a, oat, o);
  }

  /** `Put` into the top dictionary, and the two trees it leaves alone. */
  method PutBeside(result: Dict, key: string, it: Item, ghost rat: Places, ghost m: Node, ghost xat: Places, ghost x: Node, ghost m': Node,
                   ghost at: Places, ghost a: Node, ghost oat: Places, ghost o: Node)
    requires Holds(rat, m) && [] in rat && rat[[]] == result
    requires Holds(xat, x) && ItemOf(it, xat, x) && Outside(rat, [key]) !! xat.Values
    requires Exchanged(m, [key], Some(x), m')
    requires Holds(at, a) && Holds(oat, o) && result !in at.Values + oat.Values
    modifies result
    ensures Holds(Graft(rat, [key], xat), m') && Holds(at, a) && Holds(oat, o)
  {
    assert [] + [key] == [key];
    Put(result, key, it, rat, m, [], xat, x, m');
  }

  /** All that a turn rests on and leaves, but for what the dictionaries hold. */
  lemma TurnReady(result: Dict, at: Places, a: Node, oat: Places, o: Node, done: set<string>, rat: Places, key: string,
                  xat: Places, made: set<Dict>)
    requires Merging(result, at, a, oat, o, done, rat) && key in o.kids && key !in done
    requires FromHere(xat, at, oat, key, made) && made !! rat.Values + oat.Values
    ensures Exchanged(MergedNow(a, o, done), [key], Some(Overlay(a, o).kids[key]), MergedNow(a, o, done + {key}))
    ensures Outside(rat, [key]) !! xat.Values && done + {key} <= o.kids.Keys
    ensures var g := Graft(rat, [key], xat);
      && [] in g && g[[]] == result && Untouched(at, g, done + {key}) && Clear(oat, g, done + {key})
      && g.Values - rat.Values - at.Values - oat.Values <= made
  {
    MergedSteps(a, o, done, key);
    SetExchanges(MergedNow(a, o, done), [key], Overlay(a, o).kids[key]);
    ApartHere(at, oat, rat, done, key, xat, made);
    TurnKeeps(at, oat, rat, done, key, xat, made);
    GraftIn(rat, [key], xat, []);
  }

  /** Both sides are as they were, and `result` holds the merged tree. */
  ghost predicate Merged(result: Dict, at: Places, a: Node, oat: Places, o: Node, rat: Places)
    reads at.Values, oat.Values, rat.Values
  {
    && Holds(at, a) && Holds(oat, o) && BothSections(a, o)
    && Holds(rat, Overlay(a, o)) && [] in rat && rat[[]] == result
  }

  lemma MergeEnds(result: Dict, at: Places, a: Node, oat: Places, o: Node, rat: Places)
    requires BothSections(a, o) && Merging(result, at, a, oat, o, o.kids.Keys, rat)
    ensures Merged(result, at, a, oat, o, rat)
  {
    MergedBounds(a, o);
  }

  lemma OneLess(oat: Places, o: Node, todo: set<string>, key: string)
    requires Holds(oat, o) && [] in oat && o.Section? && todo <= o.kids.Keys && key in todo
    ensures o.kids.Keys - todo + {key} == o.kids.Keys - (todo - {key}) && key in oat[[]].items
  {
    TopKeys(oat, o);
  }

  /** Two steps that add nothing known add nothing known. */
  lemma OnlyNew(ds: set<Dict>, ds': set<Dict>, ds'': set<Dict>, at: set<Dict>, oat: set<Dict>, known: set<Dict>)
    requires (ds' - ds - at - oat) !! known && (ds'' - ds' - at - oat) !! known
    ensures (ds'' - ds - at - oat) !! known
  {
  }

  /** `for key, value in override.items()` */
  method MergeAll(result: Dict, override: Dict, ghost at: Places, ghost a: Node, ghost oat: Places, ghost o: Node, ghost rat: Places,
                  ghost known: set<Dict>)
    returns (ghost rat': Places)
    requires Merging(result, at, a, oat, o, {}, rat) && oat[[]] == override
    modifies result
    ensures Merged(result, at, a, oat, o, rat') && (rat'.Values - rat.Values - at.Values - oat.Values) !! known
    decreases o, 3
  {
    var todo := override.items.Keys;
    TopKeys(oat, o);
    rat' := rat;
    assert o.kids.Keys - todo == {};
    while todo != {}
      invariant todo <= o.kids.Keys && Merging(result, at, a, oat, o, o.kids.Keys - todo, rat')
      invariant (rat'.Values - rat.Values - at.Values - oat.Values) !! known
      decreases todo
    {
      var key :| key in todo;
      ghost var before := rat'.Values;
      OneLess(oat, o, todo, key);
      rat' := MergeTurn(result, override, key, at, a, oat, o, o.kids.Keys - todo, rat', known);
      OnlyNew(rat.Values, before, rat'.Values, at.Values, oat.Values, known);
      todo := todo - {key};
    }
    assert o.kids.Keys - todo == o.kids.Keys;
    MergeEnds(result, at, a, oat, o, rat');
  }

  /** `_merge_config`: a new dictionary that holds the merged tree; nothing that was there is
      written. */
  method MergeDicts(base: Dict, override: Dict, ghost at: Places, ghost a: Node, ghost oat: Places, ghost o: Node,
                    ghost known: set<Dict>)
    returns (result: Dict, ghost rat: Places)
    requires Holds(at, a) && [] in at && at[[]] == base
    requires Holds(oat, o) && [] in oat && oat[[]] == override && at.Values !! oat.Values
    ensures fresh(result) && Merged(result, at, a, oat, o, rat) && (rat.Values - at.Values - oat.Values) !! known
    decreases o, 4
  {
    result, rat := StartMerge(base, at, a, oat, o, known);
    ghost var start := rat.Values;
    rat := MergeAll(result, override, at, a, oat, o, rat, known);
    NewAtEnd(result, start, rat.Values, at.Values, oat.Values, known);
  }

  lemma NewAtEnd(result: Dict, start: set<Dict>, end: set<Dict>, at: set<Dict>, oat: set<Dict>, known: set<Dict>)
    requires result !in known && start <= at + {result} && (end - start - at - oat) !! known
    ensures (end - at - oat) !! known
  {
  }
}