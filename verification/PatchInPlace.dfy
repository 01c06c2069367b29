/** `apply_changes` as a whole on the heap: a shallow copy of the configuration, changed in
    place once for each change, while the configuration passed in goes on sharing sections
    with it. Both are proved to hold what `ShallowCopy` says. */
module PatchInPlace {
  import opened Wrappers
  import opened ConfigTree
  import opened DottedKeys
  import opened Changes
  import opened ConfigDiff
  import opened ConfigPatch
  import opened NestedDicts
  import opened ShallowCopy

  /** An addition or modification with an item, which stores the tree `x` placed at `xat`, or a
      removal. */
  datatype Edit = Write(it: Item, ghost xat: Places, ghost x: Node) | Delete

  ghost function AsChange(e: Edit): Change {
    match e
    case Write(_, _, x) => Change.Put(x)
    case Delete => Drop
  }

  ghost function AsChanges(edits: seq<(string, Edit)>): (cs: seq<(string, Change)>)
    ensures |cs| == |edits|
    ensures forall i :: 0 <= i < |edits| ==> cs[i] == (edits[i].0, AsChange(edits[i].1))
  {
    seq(|edits|, i requires 0 <= i < |edits| => (edits[i].0, AsChange(edits[i].1)))
  }

  /** The dictionaries an edit brings with it. */
  ghost function Brought(e: Edit): set<Dict> {
    match e
    case Write(_, xat, _) => xat.Values
    case Delete => {}
  }

  ghost predicate Ready(e: Edit)
    reads Brought(e)
  {
    e.Write? ==> Holds(e.xat, e.x) && ItemOf(e.it, e.xat, e.x)
  }

  // ----- Two top dictionaries over shared sections.

  ghost predicate Within(q: Path, shared: set<string>) {
    q != [] && q[0] in shared
  }

  /** Below shared keys the two trees have the same dictionaries, and nowhere else. */
  ghost predicate Tied(at: Places, bat: Places, shared: set<string>) {
    forall q :: q in bat && q != [] ==> if q[0] in shared then q in at && at[q] == bat[q] else bat[q] !in at.Values
  }

  /** `result` holds the copy's tree and `base` the other one. */
  ghost predicate TwoViews(result: Dict, base: Dict, at: Places, bat: Places, v: Views)
    reads at.Values, bat.Values
  {
    && Agree(v)
    && Holds(at, v.copy) && [] in at && at[[]] == result
    && Holds(bat, v.base) && [] in bat && bat[[]] == base
    && base !in at.Values && result !in bat.Values
    && Tied(at, bat, v.shared)
  }

  /** The places of the base: its own, and the copy's below shared keys. */
  ghost function Mix(bat: Places, at: Places, shared: set<string>): Places {
    map q | q in bat.Keys + at.Keys && (if Within(q, shared) then q in at else q in bat)
      :: if Within(q, shared) then at[q] else bat[q]
  }

  /** The base's dictionaries that no change of the copy can reach. */
  ghost function Own(bat: Places, shared: set<string>): set<Dict> {
    set q | q in bat && !Within(q, shared) :: bat[q]
  }

  /** What is known of the base when the copy has moved on to `at`, holding `m`. */
  ghost predicate Follows(rows: Rows, bat: Places, b: Node, at: Places, m: Node, shared: set<string>, c: Node) {
    && Unshared(bat) && Spells(rows, bat, b) && [] in bat
    && Own(bat, shared) !! at.Values
    && (forall k :: k in shared ==> [k] in bat && [k] in at && bat[[k]] == at[[k]])
    && c.Section?
    && (forall q :: q != [] ==> Lookup(c, q) == if q[0] in shared then Lookup(m, q) else Lookup(b, q))
  }

  lemma OwnEntry(rows: Rows, bat: Places, b: Node, at: Places, m: Node, shared: set<string>, c: Node, q: Path, k: string)
    requires Follows(rows, bat, b, at, m, shared, c) && (forall p :: p in at <==> IsSection(m, p))
    requires q in bat && !Within(q, shared)
    ensures EntryFits(rows[q], Mix(bat, at, shared), q, c, k)
  {
    var r := q + [k];
    assert EntryFits(rows[q], bat, q, b, k);
    if q == [] {
      assert r == [k];
    } else {
      assert r[0] == q[0];
    }
  }

  lemma SharedEntry(rows: Rows, bat: Places, b: Node, arows: Rows, at: Places, m: Node, shared: set<string>, c: Node, q: Path, k: string)
    requires Follows(rows, bat, b, at, m, shared, c) && Spells(arows, at, m)
    requires q in at && Within(q, shared)
    ensures EntryFits(arows[q], Mix(bat, at, shared), q, c, k)
  {
    assert EntryFits(arows[q], at, q, m, k);
    assert (q + [k])[0] == q[0];
  }

  lemma MixSpells(rows: Rows, arows: Rows, bat: Places, b: Node, at: Places, m: Node, shared: set<string>, c: Node, crows: Rows)
    requires Follows(rows, bat, b, at, m, shared, c) && Spells(arows, at, m)
    requires crows.Keys == Mix(bat, at, shared).Keys
    requires forall q :: q in crows ==> crows[q] == if Within(q, shared) then arows[q] else rows[q]
    ensures Spells(crows, Mix(bat, at, shared), c)
  {
    var mix := Mix(bat, at, shared);
    forall q ensures q in mix <==> IsSection(c, q) {
      assert q != [] ==> Lookup(c, q) == if q[0] in shared then Lookup(m, q) else Lookup(b, q);
    }
    forall q | q in crows ensures RowFits(crows[q], mix, q, c) {
      forall k ensures EntryFits(crows[q], mix, q, c, k) {
        if Within(q, shared) {
          SharedEntry(rows, bat, b, arows, at, m, shared, c, q, k);
        } else {
          OwnEntry(rows, bat, b, at, m, shared, c, q, k);
        }
      }
    }
  }

  lemma MixUnshared(bat: Places, at: Places, shared: set<string>)
    requires Unshared(bat) && Unshared(at) && Own(bat, shared) !! at.Values
    ensures Unshared(Mix(bat, at, shared))
  {
    var mix := Mix(bat, at, shared);
    forall p, q | p in mix && q in mix && mix[p] == mix[q] ensures p == q {
      assert !Within(p, shared) ==> mix[p] in Own(bat, shared);
      assert !Within(q, shared) ==> mix[q] in Own(bat, shared);
    }
  }

  /** The base's own dictionaries being as they were, the base holds the mixed tree. */
  lemma MixHolds(rows: Rows, bat: Places, b: Node, at: Places, m: Node, shared: set<string>, c: Node)
    requires Follows(rows, bat, b, at, m, shared, c) && Holds(at, m)
    requires forall q :: q in bat && !Within(q, shared) ==> bat[q].items == rows[q]
    ensures Holds(Mix(bat, at, shared), c)
  {
    MixUnshared(bat, at, shared);
    MixSpells(rows, Contents(at), bat, b, at, m, shared, c, Contents(Mix(bat, at, shared)));
  }

  /** No way to a changed key meets a dictionary of the base's own. */
  lemma OwnOffWay(result: Dict, base: Dict, at: Places, bat: Places, v: Views, key: string, change: Change)
    requires TwoViews(result, base, at, bat, v)
    ensures Own(bat, ShallowCopy.Step(v, key, change).shared) !! Way(at, Split(key))
  {
    var p, w := Split(key), ShallowCopy.Step(v, key, change);
    forall q, r | q in bat && !Within(q, w.shared) && r in at && r <= p && r != p ensures bat[q] != at[r] {
      assert at[r] in at.Values;
    }
  }

  /** After a step the base follows. */
  lemma StepFollows(result: Dict, base: Dict, rows: Rows, at: Places, bat: Places, v: Views, key: string, change: Change,
                    at': Places, brought: set<Dict>, made: set<Dict>)
    requires Agree(v) && Unshared(at) && Unshared(bat) && Spells(rows, bat, v.base) && Tied(at, bat, v.shared)
    requires [] in bat && bat[[]] == base && base !in at.Values
    requires !v.raised && Apply(v.copy, key, change).Some?
    requires StillPlaced(at, Split(key), at') && Displaced(at, Split(key), at')
    requires at'.Values <= at.Values + brought + made && bat.Values !! brought + made
    ensures var w := ShallowCopy.Step(v, key, change);
      Follows(rows, bat, v.base, at', w.copy, w.shared, w.base)
  {
    var p, w := Split(key), ShallowCopy.Step(v, key, change);
    StepAgrees(v, key, change);
    forall q | q in bat && !Within(q, w.shared) ensures bat[q] !in at'.Values {
      assert bat[q] in bat.Values;
    }
    forall k | k in w.shared ensures [k] in bat && [k] in at' && bat[[k]] == at'[[k]] {
      KidSection(v.base, k);
      assert IsSection(v.base, [k]);
      assert !(p <= [k]);
    }
    forall q | q != [] ensures Lookup(w.base, q) == if q[0] in w.shared then Lookup(w.copy, q) else Lookup(v.base, q) {
      StepReads(v, key, change, q);
    }
  }

  /** After a raise nothing has moved. */
  lemma RaiseFollows(rows: Rows, at: Places, bat: Places, v: Views)
    requires Agree(v) && Unshared(bat) && Spells(rows, bat, v.base) && Tied(at, bat, v.shared)
    requires [] in bat && bat[[]] !in at.Values
    ensures Follows(rows, bat, v.base, at, v.copy, v.shared, v.base)
  {
    forall k | k in v.shared ensures [k] in bat && [k] in at && bat[[k]] == at[[k]] {
      KidSection(v.base, k);
      assert IsSection(v.base, [k]);
    }
  }

  /** Once the base follows, the two views are those of the next state. */
  lemma ViewsFollow(result: Dict, base: Dict, rows: Rows, bat: Places, b: Node, at: Places, w: Views)
    requires Follows(rows, bat, b, at, w.copy, w.shared, w.base) && Agree(w) && Holds(at, w.copy)
    requires [] in at && at[[]] == result && bat[[]] == base && result !in bat.Values
    requires forall q :: q in bat && !Within(q, w.shared) ==> bat[q].items == rows[q]
    ensures TwoViews(result, base, at, Mix(bat, at, w.shared), w)
    ensures Mix(bat, at, w.shared).Values <= bat.Values + at.Values
  {
    MixHolds(rows, bat, b, at, w.copy, w.shared, w.base);
  }

  // ----- One change.

  /** One edit of the tree under `result`, and what it leaves alone. */
  method ApplyEdit(result: Dict, key: string, e: Edit, ghost at: Places, ghost m: Node, ghost own: set<Dict>)
    returns (ok: bool, ghost at': Places)
    requires Holds(at, m) && [] in at && at[[]] == result
    requires Ready(e) && Brought(e) !! at.Values && own !! Way(at, Split(key))
    modifies Way(at, Split(key))
    ensures ok <==> Apply(m, key, AsChange(e)).Some?
    ensures ok ==> Holds(at', Apply(m, key, AsChange(e)).value)
    ensures ok ==> StillPlaced(at, Split(key), at') && Displaced(at, Split(key), at')
    ensures ok ==> fresh(at'.Values - at.Values - Brought(e))
    ensures !ok ==> Holds(at, m)
    ensures forall d :: d in own ==> d.items == old(d.items)
  {
    match e
    case Write(it, xat, x) =>
      ok, at' := SetNestedValue(result, Split(key), it, at, m, xat, x);
    case Delete =>
      at' := RemoveNestedValue(result, Split(key), at, m);
      ok := true;
  }

  /** One change of the copy, and what both configurations hold afterwards. */
  method ApplyStep(result: Dict, base: Dict, key: string, e: Edit, ghost at: Places, ghost bat: Places, ghost v: Views,
                   ghost known: set<Dict>)
    returns (ok: bool, ghost at': Places, ghost bat': Places)
    requires TwoViews(result, base, at, bat, v) && !v.raised
    requires Ready(e) && Brought(e) !! at.Values + bat.Values
    modifies at.Values
    ensures var w := ShallowCopy.Step(v, key, AsChange(e)); ok == !w.raised && TwoViews(result, base, at', bat', w)
    ensures fresh(at'.Values - at.Values - Brought(e)) && bat'.Values <= bat.Values + at'.Values
    ensures (at'.Values - at.Values - Brought(e)) !! known
  {
    ghost var change := AsChange(e);
    ghost var w := ShallowCopy.Step(v, key, change);
    ghost var rows := Contents(bat);
    OwnOffWay(result, base, at, bat, v, key, change);
    ok, at' := ApplyEdit(result, key, e, at, v.copy, Own(bat, w.shared));
    if ok {
      StepFollows(result, base, rows, at, bat, v, key, change, at', Brought(e), at'.Values - at.Values - Brought(e));
    } else {
      at' := at;
      RaiseFollows(rows, at, bat, v);
    }
    assert forall q :: q in bat && !Within(q, w.shared) ==> bat[q].items == rows[q] by {
      assert forall q :: q in bat && !Within(q, w.shared) ==> bat[q] in Own(bat, w.shared);
    }
    StepAgrees(v, key, change);
    ViewsFollow(result, base, rows, bat, v.base, at', w);
    bat' := Mix(bat, at', w.shared);
  }

  // ----- All of them.

  ghost function AllBrought(edits: seq<(string, Edit)>): set<Dict> {
    set j, d | 0 <= j < |edits| && d in Brought(edits[j].1) :: d
  }

  /** No dictionary is brought twice. */
  ghost predicate Apart(edits: seq<(string, Edit)>) {
    forall j, k :: 0 <= j < k < |edits| ==> Brought(edits[j].1) !! Brought(edits[k].1)
  }

  /** What the edits from number `i` on bring is not in `taken`. */
  ghost predicate Free(edits: seq<(string, Edit)>, i: nat, taken: set<Dict>) {
    forall j :: i <= j < |edits| ==> Brought(edits[j].1) !! taken
  }

  /** And holds what it should. */
  ghost predicate Pending(edits: seq<(string, Edit)>, i: nat)
    reads AllBrought(edits)
  {
    forall j :: i <= j < |edits| ==> Ready(edits[j].1)
  }

  /** The loop before change number `i`. */
  ghost predicate Ongoing(result: Dict, base: Dict, n: Node, edits: seq<(string, Edit)>, i: nat,
                          at: Places, bat: Places, v: Views)
    reads at.Values, bat.Values, AllBrought(edits)
  {
    && n.Section? && i <= |edits| && v == ShallowCopy.Run(n, AsChanges(edits)[..i])
    && TwoViews(result, base, at, bat, v) && Free(edits, i, at.Values + bat.Values) && Pending(edits, i)
  }

  /** The end of it, by running out of changes or by a raise. */
  ghost predicate Ended(result: Dict, base: Dict, n: Node, edits: seq<(string, Edit)>, ok: bool, at: Places, bat: Places)
    reads at.Values, bat.Values
  {
    n.Section? &&
    var w := ShallowCopy.Run(n, AsChanges(edits)); ok == !w.raised && TwoViews(result, base, at, bat, w)
  }

  lemma StillFree(edits: seq<(string, Edit)>, i: nat, ds: set<Dict>, bs: set<Dict>, ds': set<Dict>, bs': set<Dict>)
    requires Apart(edits) && i < |edits| && Free(edits, i, ds + bs)
    requires (ds' - ds - Brought(edits[i].1)) !! AllBrought(edits) && bs' <= bs + ds'
    ensures Free(edits, i + 1, ds' + bs') && Brought(edits[i].1) <= AllBrought(edits)
  {
    forall j | i + 1 <= j < |edits| ensures Brought(edits[j].1) !! ds' + bs' {
      assert Brought(edits[j].1) <= AllBrought(edits);
    }
  }

  /** Change number `i`, with the later ones left ready. */
  method ApplyNext(result: Dict, base: Dict, edits: seq<(string, Edit)>, i: nat,
                   ghost n: Node, ghost at: Places, ghost bat: Places, ghost v: Views)
    returns (ok: bool, ghost at': Places, ghost bat': Places, ghost w: Views)
    requires i < |edits| && Apart(edits) && Ongoing(result, base, n, edits, i, at, bat, v) && !v.raised
    modifies at.Values
    ensures if ok then Ongoing(result, base, n, edits, i + 1, at', bat', w) && !w.raised
            else Ended(result, base, n, edits, false, at', bat')
    ensures fresh(at'.Values - at.Values - AllBrought(edits))
  {
    RunNext(n, AsChanges(edits), i);
    w := ShallowCopy.Step(v, edits[i].0, AsChange(edits[i].1));
    ok, at', bat' := ApplyStep(result, base, edits[i].0, edits[i].1, at, bat, v, AllBrought(edits));
    StillFree(edits, i, at.Values, bat.Values, at'.Values, bat'.Values);
    forall j | i + 1 <= j < |edits| ensures Ready(edits[j].1) {
      assert old(Ready(edits[j].1)) && Brought(edits[j].1) !! at.Values;
    }
    if !ok {
      RaisedForGood(n, AsChanges(edits), i + 1);
    }
  }

  /** `for key, value in changes.items()` */
  method ApplyAllEdits(result: Dict, base: Dict, edits: seq<(string, Edit)>,
                       ghost n: Node, ghost at: Places, ghost bat: Places, ghost v: Views)
    returns (ok: bool, ghost at': Places, ghost bat': Places)
    requires Apart(edits) && Ongoing(result, base, n, edits, 0, at, bat, v) && !v.raised
    modifies at.Values, AllBrought(edits)
    ensures Ended(result, base, n, edits, ok, at', bat')
  {
    ghost var w := v;
    at', bat' := at, bat;
    for i := 0 to |edits|
      invariant Ongoing(result, base, n, edits, i, at', bat', w) && !w.raised
      invariant fresh(at'.Values - at.Values - AllBrought(edits))
    {
      ok, at', bat', w := ApplyNext(result, base, edits, i, n, at', bat', w);
      if !ok {
        return;
      }
    }
    RunEnds(n, AsChanges(edits));
    ok := true;
  }

  /** `apply_changes`: whether it raises, what the copy holds and what the configuration passed
      in holds afterwards, all as `ShallowCopy.Run` says, after a raise too. */
  method ApplyEdits(base: Dict, edits: seq<(string, Edit)>, ghost at: Places, ghost n: Node)
    returns (ok: bool, result: Dict, ghost at': Places, ghost bat: Places)
    requires Holds(at, n) && [] in at && at[[]] == base
    requires Apart(edits) && Free(edits, 0, at.Values) && Pending(edits, 0)
    modifies at.Values - {base}, AllBrought(edits)
    ensures fresh(result) && Ended(result, base, n, edits, ok, at', bat)
  {
    ghost var v;
    result, at', v := Copy(base, edits, at, n);
    ok, at', bat := ApplyAllEdits(result, base, edits, n, at', at, v);
  }

  /** `base_config.copy()` */
  method Copy(base: Dict, ghost edits: seq<(string, Edit)>, ghost at: Places, ghost n: Node)
    returns (copy: Dict, ghost at': Places, ghost v: Views)
    requires Holds(at, n) && [] in at && at[[]] == base && Free(edits, 0, at.Values) && Pending(edits, 0)
    ensures fresh(copy) && fresh(at'.Values - at.Values)
    ensures Ongoing(copy, base, n, edits, 0, at', at, v) && !v.raised
  {
    RunEnds(n, AsChanges(edits));
    v := Start(n);
    copy := new Dict(base.items);
    at' := at[[] := copy];
    Shared(base, copy, at, n, edits);
  }

  lemma RunEnds(n: Node, cs: seq<(string, Change)>)
    requires n.Section?
    ensures ShallowCopy.Run(n, cs[..0]) == Start(n) && ShallowCopy.Run(n, cs[..|cs|]) == ShallowCopy.Run(n, cs)
  {
    assert cs[..0] == [] && cs[..|cs|] == cs;
  }

  lemma {:induction false} RaisedForGood(n: Node, cs: seq<(string, Change)>, i: nat)
    requires n.Section? && i <= |cs| && ShallowCopy.Run(n, cs[..i]).raised
    ensures ShallowCopy.Run(n, cs) == ShallowCopy.Run(n, cs[..i])
  {
    if i < |cs| {
      assert cs[..|cs| - 1][..i] == cs[..i];
      RaisedForGood(n, cs[..|cs| - 1], i);
    } else {
      assert cs[..i] == cs;
    }
  }

  /** `base_config.copy()`: a second top dictionary over the same sections. */
  lemma Shared(base: Dict, copy: Dict, at: Places, n: Node, edits: seq<(string, Edit)>)
    requires Holds(at, n) && [] in at && at[[]] == base
    requires copy.items == base.items && copy !in at.Values + AllBrought(edits) && Free(edits, 0, at.Values)
    ensures TwoViews(copy, base, at[[] := copy], at, Start(n))
    ensures Free(edits, 0, at[[] := copy].Values + at.Values) && at[[] := copy].Values <= at.Values + {copy}
  {
    Retop(at, n, copy);
    forall q | q in at && q != [] ensures q[0] in Start(n).shared {
      SectionAbove(n, q, q[..1]);
      KidSection(n, q[0]);
      assert q[..1] == [q[0]];
    }
  }

  // ----- What follows for a caller.

  lemma KidAt(n: Node, p: Path, k: string)
    requires IsSection(n, p)
    ensures var kids := Lookup(n, p).value.kids;
      Lookup(n, p + [k]) == if k in kids then Some(kids[k]) else None
  {
    LookupAppend(n, p, [k]);
    assert [k][1..] == [];
  }

  /** A dictionary holds one tree only. */
  lemma {:induction false} OneTree(at: Places, n: Node, p: Path, at': Places, n': Node, p': Path)
    requires Holds(at, n) && Holds(at', n') && p in at && p' in at' && at[p] == at'[p']
    ensures Lookup(n, p) == Lookup(n', p')
    decreases Lookup(n, p).value
  {
    var kids, kids' := Lookup(n, p).value.kids, Lookup(n', p').value.kids;
    forall k ensures (k in kids <==> k in kids') && (k in kids ==> kids[k] == kids'[k]) {
      KidAt(n, p, k);
      KidAt(n', p', k);
      assert EntryFits(Contents(at)[p], at, p, n, k) && EntryFits(Contents(at')[p'], at', p', n', k);
      if k in kids && kids[k].Section? {
        OneTree(at, n, p + [k], at', n', p' + [k]);
      }
    }
    assert kids == kids';
  }

  /** After `apply_changes`, raised or not, the configuration passed in still holds the tree it
      held before exactly when no change went through one of its sections. */
  lemma BaseStillHoldsIff(result: Dict, base: Dict, n: Node, edits: seq<(string, Edit)>, ok: bool, at: Places, bat: Places)
    requires Ended(result, base, n, edits, ok, at, bat) && NoneNested(AsChanges(edits))
    ensures (exists places: Places :: [] in places && places[[]] == base && Holds(places, n)) <==>
            forall i :: 0 <= i < |edits| ==> !Through(n, AsChanges(edits), i)
  {
    var w := ShallowCopy.Run(n, AsChanges(edits));
    BaseKeptIff(n, AsChanges(edits));
    assert Holds(bat, w.base);
    if places: Places :| [] in places && places[[]] == base && Holds(places, n) {
      OneTree(bat, w.base, [], places, n, []);
    }
  }

  /** Patching `c1` in place by its difference to `c2` raises exactly when a key of a leaf of
      `c2` comes before the key of a leaf of `c1` above it, and otherwise gives a configuration
      with the leaves of `c2`. */
  method PatchByDiff(base: Dict, edits: seq<(string, Edit)>, ghost order: seq<string>,
                     ghost at: Places, ghost c1: Node, ghost c2: Node)
    returns (ok: bool, result: Dict, ghost at': Places, ghost m: Node)
    requires Plain(c1) && Plain(c2)
    requires IsOrder(order, ChangedKeys(DiffOf(c1, c2))) && AsChanges(edits) == ChangeList(DiffOf(c1, c2), order)
    requires Holds(at, c1) && [] in at && at[[]] == base
    requires Apart(edits) && Free(edits, 0, at.Values) && Pending(edits, 0)
    modifies at.Values - {base}, AllBrought(edits)
    ensures ok <==> forall i, m :: 0 <= i < m < |order| ==> !Clash(c1, c2, order[i], order[m])
    ensures ok ==> fresh(result) && [] in at' && at'[[]] == result && Holds(at', m) && SameLeaves(m, c2)
  {
    ghost var bat;
    PatchOrderIff(c1, c2, order);
    RunIsApplyAll(c1, AsChanges(edits));
    ok, result, at', bat := ApplyEdits(base, edits, at, c1);
    m := ShallowCopy.Run(c1, AsChanges(edits)).copy;
  }
}
