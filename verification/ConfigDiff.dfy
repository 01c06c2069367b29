/** Comparing two configurations leaf by leaf, and applying the difference. */
module ConfigDiff {
  import opened Wrappers
  import opened ConfigTree
  import opened DottedKeys
  import opened Changes

  /** What Python's `None` is: no value, or a null leaf. */
  const NONE: Node := Leaf(Null)

  /** `_get_nested_value`. */
  function Get(n: Node, key: string): Node {
    match Lookup(n, Split(key))
    case Some(x) => x
    case None => NONE
  }

  datatype Diff = Diff(
    added: map<string, Node>,
    removed: map<string, Node>,
    modified: map<string, (Node, Node)>,
    same: map<string, Node>)

  function WithoutMetadata(n: Node): (r: Node)
    requires n.Section?
    ensures r.Section?
  {
    Section(n.kids - {"_version", "_migration_log"})
  }

  function AllKeys(c1: Node, c2: Node): set<string>
    requires c1.Section? && c2.Section?
  {
    KeysOf(c1, "") + KeysOf(c2, "")
  }

  datatype Bucket = Added | Removed | Modified | Same

  function BucketOf(value1: Node, value2: Node): Bucket {
    if value1 == NONE && value2 != NONE then Added
    else if value1 != NONE && value2 == NONE then Removed
    else if value1 != value2 then Modified
    else Same
  }

  function BucketKeys(c1: Node, c2: Node, keys: set<string>, b: Bucket): set<string> {
    set s | s in keys && BucketOf(Get(c1, s), Get(c2, s)) == b
  }

  function Values(c: Node, keys: set<string>): map<string, Node> {
    map s | s in keys :: Get(c, s)
  }

  function Pairs(c1: Node, c2: Node, keys: set<string>): map<string, (Node, Node)> {
    map s | s in keys :: (Get(c1, s), Get(c2, s))
  }

  /** The keys sorted into their buckets by the values on both sides. */
  function DiffOver(c1: Node, c2: Node, keys: set<string>): Diff {
    Diff(
      Values(c2, BucketKeys(c1, c2, keys, Added)),
      Values(c1, BucketKeys(c1, c2, keys, Removed)),
      Pairs(c1, c2, BucketKeys(c1, c2, keys, Modified)),
      Values(c1, BucketKeys(c1, c2, keys, Same)))
  }

  function DiffOf(c1: Node, c2: Node): Diff
    requires c1.Section? && c2.Section?
  {
    DiffOver(c1, c2, AllKeys(c1, c2))
  }

  /** One more key in its bucket. */
  function Record(d: Diff, key: string, value1: Node, value2: Node): Diff {
    match BucketOf(value1, value2)
    case Added => d.(added := d.added[key := value2])
    case Removed => d.(removed := d.removed[key := value1])
    case Modified => d.(modified := d.modified[key := (value1, value2)])
    case Same => d.(same := d.same[key := value1])
  }

  lemma BucketGrows(c1: Node, c2: Node, keys: set<string>, key: string, b: Bucket)
    ensures BucketKeys(c1, c2, keys + {key}, b) ==
            BucketKeys(c1, c2, keys, b) + if BucketOf(Get(c1, key), Get(c2, key)) == b then {key} else {}
  {
  }

  lemma ValuesGrow(c1: Node, c2: Node, keys: set<string>, key: string)
    ensures Values(c1, keys + {key}) == Values(c1, keys)[key := Get(c1, key)]
    ensures Pairs(c1, c2, keys + {key}) == Pairs(c1, c2, keys)[key := (Get(c1, key), Get(c2, key))]
  {
  }

  lemma DiffOverGrows(c1: Node, c2: Node, keys: set<string>, key: string)
    ensures DiffOver(c1, c2, keys + {key}) == Record(DiffOver(c1, c2, keys), key, Get(c1, key), Get(c2, key))
  {
    var b := BucketOf(Get(c1, key), Get(c2, key));
    forall b' ensures BucketKeys(c1, c2, keys + {key}, b') == BucketKeys(c1, c2, keys, b') + if b == b' then {key} else {} {
      BucketGrows(c1, c2, keys, key, b');
    }
    var ks := BucketKeys(c1, c2, keys, b);
    forall b' ensures BucketKeys(c1, c2, keys, b') + {} == BucketKeys(c1, c2, keys, b') {
    }
    ValuesGrow(c1, c2, ks, key);
    ValuesGrow(c2, c1, ks, key);
  }

  method GetNestedValue(config: Node, key: string) returns (r: Node)
    ensures r == Get(config, key)
  {
    var parts := Split(key);
    var current := config;
    for i := 0 to |parts|
      invariant Lookup(current, parts[i..]) == Lookup(config, parts)
    {
      if current.Section? && parts[i] in current.kids {
        current := current.kids[parts[i]];
        assert parts[i..][1..] == parts[i + 1..];
      } else {
        return NONE;
      }
    }
    return current;
  }

  method CollectKeys(c1: Node, c2: Node) returns (keys: set<string>)
    requires c1.Section? && c2.Section?
    ensures keys == AllKeys(c1, c2)
  {
    var keys1 := GetAllKeys(c1, "");
    var keys2 := GetAllKeys(c2, "");
    keys := (set s | s in keys1) + (set s | s in keys2);
  }

  method RecordKey(diff: Diff, key: string, value1: Node, value2: Node) returns (r: Diff)
    ensures r == Record(diff, key, value1, value2)
  {
    if value1 == NONE && value2 != NONE {
      r := diff.(added := diff.added[key := value2]);
    } else if value1 != NONE && value2 == NONE {
      r := diff.(removed := diff.removed[key := value1]);
    } else if value1 != value2 {
      r := diff.(modified := diff.modified[key := (value1, value2)]);
    } else {
      r := diff.(same := diff.same[key := value1]);
    }
  }

  method CompareConfigs(config1: Node, config2: Node, ignoreMetadata: bool) returns (diff: Diff)
    requires config1.Section? && config2.Section?
    ensures diff == if ignoreMetadata then DiffOf(WithoutMetadata(config1), WithoutMetadata(config2))
                    else DiffOf(config1, config2)
  {
    var c1, c2 := config1, config2;
    if ignoreMetadata {
      c1, c2 := WithoutMetadata(c1), WithoutMetadata(c2);
    }
    var todo := CollectKeys(c1, c2);
    ghost var done: set<string> := {};
    diff := Diff(map[], map[], map[], map[]);
    while todo != {}
      invariant todo !! done && todo + done == AllKeys(c1, c2)
      invariant diff == DiffOver(c1, c2, done)
      decreases todo
    {
      var key :| key in todo;
      todo := todo - {key};
      var value1 := GetNestedValue(c1, key);
      var value2 := GetNestedValue(c2, key);
      DiffOverGrows(c1, c2, done, key);
      diff := RecordKey(diff, key, value1, value2);
      done := done + {key};
    }
  }

  // ----- Applying changes.

  method ApplyChanges(base: Node, changes: seq<(string, Change)>) returns (r: Option<Node>)
    ensures r == ApplyAll(base, changes)
  {
    var result := base;
    for i := 0 to |changes|
      invariant ApplyAll(base, changes[..i]) == Some(result)
    {
      assert changes[..i + 1][..i] == changes[..i];
      match changes[i].1
      case Put(x) =>
        var m := Set(result, Split(changes[i].0), x);
        if m.None? {
          RaisedStaysRaised(base, changes, i + 1);
          return None;
        }
        result := m.value;
      case Drop =>
        result := Remove(result, Split(changes[i].0));
    }
    assert changes[..|changes|] == changes;
    return Some(result);
  }

  /** A tree as configuration files give them: named sections, no nulls. */
  predicate Plain(c: Node) {
    c.Section? && Named(c) && NoNulls(c)
  }

  // ----- Classification.

  lemma {:induction false} PresentIsNotNone(n: Node, p: Path)
    requires NoNulls(n)
    ensures Lookup(n, p) != Some(NONE)
  {
    if p != [] && n.Section? && p[0] in n.kids {
      PresentIsNotNone(n.kids[p[0]], p[1..]);
    }
  }

  lemma GetIsNone(n: Node, key: string)
    requires NoNulls(n)
    ensures Get(n, key) == NONE <==> Lookup(n, Split(key)) == None
  {
    PresentIsNotNone(n, Split(key));
  }

  /** Every leaf path of either side, and nothing else, is in one bucket, and in only one. */
  lemma OneBucket(c1: Node, c2: Node, s: string)
    requires c1.Section? && c2.Section? && Named(c1) && Named(c2)
    ensures var d := DiffOf(c1, c2);
      var here := (if s in d.added then 1 else 0) + (if s in d.removed then 1 else 0)
                  + (if s in d.modified then 1 else 0) + (if s in d.same then 1 else 0);
      here == if LeafAt(c1, Split(s)).Some? || LeafAt(c2, Split(s)).Some? then 1 else 0
  {
    KeyIffLeaf(c1, s);
    KeyIffLeaf(c2, s);
  }

  /** Swapping the sides swaps added and removed and turns each modification around. */
  lemma DiffSwaps(c1: Node, c2: Node)
    requires c1.Section? && c2.Section?
    ensures var d, e := DiffOf(c1, c2), DiffOf(c2, c1);
      && e.added == d.removed && e.removed == d.added && e.same == d.same
      && e.modified.Keys == d.modified.Keys
      && forall s :: s in d.modified ==> e.modified[s] == (d.modified[s].1, d.modified[s].0)
  {
    var keys := AllKeys(c1, c2);
    assert AllKeys(c2, c1) == keys;
    BucketSwaps(c1, c2, keys);
  }

  lemma BucketSwaps(c1: Node, c2: Node, keys: set<string>)
    ensures BucketKeys(c2, c1, keys, Added) == BucketKeys(c1, c2, keys, Removed)
    ensures BucketKeys(c2, c1, keys, Removed) == BucketKeys(c1, c2, keys, Added)
    ensures BucketKeys(c2, c1, keys, Modified) == BucketKeys(c1, c2, keys, Modified)
    ensures BucketKeys(c2, c1, keys, Same) == BucketKeys(c1, c2, keys, Same)
    ensures Values(c2, BucketKeys(c1, c2, keys, Same)) == Values(c1, BucketKeys(c1, c2, keys, Same))
  {
  }

  /** Nothing is reported exactly when the two have the same leaves. */
  lemma NoDiffIffSameLeaves(c1: Node, c2: Node)
    requires Plain(c1) && Plain(c2)
    ensures var d := DiffOf(c1, c2);
      d.added == map[] && d.removed == map[] && d.modified == map[] <==> SameLeaves(c1, c2)
  {
    var d := DiffOf(c1, c2);
    if d.added == map[] && d.removed == map[] && d.modified == map[] {
      forall p: Path ensures LeafAt(c1, p) == LeafAt(c2, p) {
        if LeafAt(c1, p) != LeafAt(c2, p) {
          LeafPathIsKey(c1, c2, p);
          var s := Join(p);
          OneBucket(c1, c2, s);
          assert s in d.same;
          assert Get(c1, s) == Get(c2, s);
          GetIsNone(c1, s);
          GetIsNone(c2, s);
        }
      }
    }
    if SameLeaves(c1, c2) {
      var keys := AllKeys(c1, c2);
      forall s | s in keys ensures BucketOf(Get(c1, s), Get(c2, s)) == Same {
        KeyIffLeaf(c1, s);
        KeyIffLeaf(c2, s);
        assert LeafAt(c1, Split(s)) == LeafAt(c2, Split(s));
      }
      assert BucketKeys(c1, c2, keys, Added) == {};
      assert BucketKeys(c1, c2, keys, Removed) == {};
      assert BucketKeys(c1, c2, keys, Modified) == {};
    }
  }

  lemma LeafPathIsKey(c1: Node, c2: Node, p: Path)
    requires Plain(c1) && Plain(c2) && (LeafAt(c1, p).Some? || LeafAt(c2, p).Some?)
    ensures p != [] && Split(Join(p)) == p && Join(p) in AllKeys(c1, c2)
  {
    if LeafAt(c1, p).Some? {
      LeafPathDotFree(c1, p);
    } else {
      LeafPathDotFree(c2, p);
    }
    KeyIffLeaf(c1, Join(p));
    KeyIffLeaf(c2, Join(p));
  }

  /** Python's `None`: no value, or a null leaf. */
  predicate Nothing(x: Option<Node>) {
    x == None || x == Some(Leaf(Null))
  }

  /** Which bucket a key is in, and with which values: told from what stands at its path on
      either side, one of the two being a leaf. */
  lemma Classified(c1: Node, c2: Node, s: string)
    requires c1.Section? && c2.Section? && Named(c1) && Named(c2)
    ensures var d, x, y := DiffOf(c1, c2), Lookup(c1, Split(s)), Lookup(c2, Split(s));
      var leaf := LeafAt(c1, Split(s)).Some? || LeafAt(c2, Split(s)).Some?;
      && (s in d.added <==> leaf && Nothing(x) && !Nothing(y))
      && (s in d.removed <==> leaf && !Nothing(x) && Nothing(y))
      && (s in d.modified <==> leaf && !Nothing(x) && !Nothing(y) && x != y)
      && (s in d.same <==> leaf && (x == y || (Nothing(x) && Nothing(y))))
      && (s in d.added ==> Some(d.added[s]) == y)
      && (s in d.removed ==> Some(d.removed[s]) == x)
      && (s in d.modified ==> Some(d.modified[s].0) == x && Some(d.modified[s].1) == y)
      && (s in d.same ==> if Nothing(x) then d.same[s] == Leaf(Null) else Some(d.same[s]) == x)
  {
    KeyIffLeaf(c1, s);
    KeyIffLeaf(c2, s);
  }

  // ----- Metadata.

  lemma WithoutMetadataNamed(c: Node)
    requires c.Section? && Named(c)
    ensures Named(WithoutMetadata(c)) && (NoNulls(c) ==> NoNulls(WithoutMetadata(c)))
  {
  }

  lemma LookupWithoutMetadata(c: Node, p: Path)
    requires c.Section? && p != []
    ensures Lookup(WithoutMetadata(c), p) == if p[0] == "_version" || p[0] == "_migration_log" then None else Lookup(c, p)
  {
  }

  /** With metadata ignored, nothing under the two keys is in any bucket. */
  lemma MetadataIgnored(c1: Node, c2: Node, s: string)
    requires c1.Section? && c2.Section? && Named(c1) && Named(c2)
    requires Split(s)[0] == "_version" || Split(s)[0] == "_migration_log"
    ensures var d := DiffOf(WithoutMetadata(c1), WithoutMetadata(c2));
      s !in d.added && s !in d.removed && s !in d.modified && s !in d.same
  {
    WithoutMetadataNamed(c1);
    WithoutMetadataNamed(c2);
    LookupWithoutMetadata(c1, Split(s));
    LookupWithoutMetadata(c2, Split(s));
    Classified(WithoutMetadata(c1), WithoutMetadata(c2), s);
  }

  /** Everything else is in the bucket it is in otherwise, with the same values. */
  lemma OthersKeepBucket(c1: Node, c2: Node, s: string)
    requires c1.Section? && c2.Section? && Named(c1) && Named(c2)
    requires Split(s)[0] != "_version" && Split(s)[0] != "_migration_log"
    ensures var d, e := DiffOf(WithoutMetadata(c1), WithoutMetadata(c2)), DiffOf(c1, c2);
      && (s in d.added <==> s in e.added) && (s in d.removed <==> s in e.removed)
      && (s in d.modified <==> s in e.modified) && (s in d.same <==> s in e.same)
      && (s in d.added ==> d.added[s] == e.added[s]) && (s in d.removed ==> d.removed[s] == e.removed[s])
      && (s in d.modified ==> d.modified[s] == e.modified[s]) && (s in d.same ==> d.same[s] == e.same[s])
  {
    KeyKept(c1, s);
    KeyKept(c2, s);
  }

  lemma KeyKept(c: Node, s: string)
    requires c.Section? && Named(c) && Split(s)[0] != "_version" && Split(s)[0] != "_migration_log"
    ensures Get(WithoutMetadata(c), s) == Get(c, s)
    ensures s in KeysOf(WithoutMetadata(c), "") <==> s in KeysOf(c, "")
  {
    WithoutMetadataNamed(c);
    LookupWithoutMetadata(c, Split(s));
    KeyIffLeaf(c, s);
    KeyIffLeaf(WithoutMetadata(c), s);
  }

  /** Nothing is reported exactly when the leaves outside the two keys agree. */
  lemma NoReportIff(c1: Node, c2: Node)
    requires Plain(c1) && Plain(c2)
    ensures var d := DiffOf(WithoutMetadata(c1), WithoutMetadata(c2));
      d.added == map[] && d.removed == map[] && d.modified == map[] <==>
      forall p: Path :: p != [] && p[0] != "_version" && p[0] != "_migration_log" ==> LeafAt(c1, p) == LeafAt(c2, p)
  {
    var b1, b2 := WithoutMetadata(c1), WithoutMetadata(c2);
    WithoutMetadataNamed(c1);
    WithoutMetadataNamed(c2);
    NoDiffIffSameLeaves(b1, b2);
    forall p: Path | p != []
      ensures LeafAt(b1, p) == if p[0] == "_version" || p[0] == "_migration_log" then None else LeafAt(c1, p)
      ensures LeafAt(b2, p) == if p[0] == "_version" || p[0] == "_migration_log" then None else LeafAt(c2, p)
    {
      LookupWithoutMetadata(c1, p);
      LookupWithoutMetadata(c2, p);
    }
    assert LeafAt(b1, []) == LeafAt(b2, []);
  }
}
